/**
 * The pieces of the Java and Python string libraries the modelled code relies on:
 * the three whitespace classes, trim, indexOf, replace, join, lexicographic order
 * and decimal printing. Each is defined once here and used by the other modules.
 */
module JavaText {

  /** Character.isWhitespace: the Unicode space separators except the no-break ones,
    * the line and paragraph separators, and the ASCII controls 9-13 and 28-31. */
  predicate IsWhitespace(c: char)
  {
    var n := c as int;
    (9 <= n <= 13) || (28 <= n <= 32) || n == 0x1680 || (0x2000 <= n <= 0x200A && n != 0x2007)
    || n == 0x2028 || n == 0x2029 || n == 0x205F || n == 0x3000
  }

  /** The characters String.trim() removes: everything up to and including ' '. */
  predicate IsTrimmable(c: char) { c <= ' ' }

  /** The regular-expression class \s: space, tab, newline, vertical tab, form feed, return. */
  predicate IsRegexSpace(c: char)
  {
    c == ' ' || c == '\t' || c == '\n' || c as int == 0x0B || c as int == 0x0C || c == '\r'
  }

  /** ASCII letters and digits, the model of Character.isLetterOrDigit. */
  predicate IsLetterOrDigit(c: char)
  {
    ('a' <= c <= 'z') || ('A' <= c <= 'Z') || ('0' <= c <= '9')
  }

  /** The regular-expression class \w: ASCII letters, digits and '_'. */
  predicate IsWordChar(c: char) { IsLetterOrDigit(c) || c == '_' }

  /** String.toLowerCase on the ASCII range. */
  function LowerChar(c: char): (r: char)
    ensures 'A' <= c <= 'Z' ==> r as int == c as int + 32
    ensures !('A' <= c <= 'Z') ==> r == c
  {
    if 'A' <= c <= 'Z' then (c as int + 32) as char else c
  }

  function Lower(s: string): (r: string)
    ensures |r| == |s| && forall i :: 0 <= i < |s| ==> r[i] == LowerChar(s[i])
  {
    if s == [] then [] else [LowerChar(s[0])] + Lower(s[1..])
  }

  /** Index of the first character not removed by String.trim() from the left. */
  function TrimStart(s: string): (k: nat)
    ensures k <= |s|
    ensures forall i :: 0 <= i < k ==> IsTrimmable(s[i])
    ensures k < |s| ==> !IsTrimmable(s[k])
  {
    if s == [] || !IsTrimmable(s[0]) then 0 else 1 + TrimStart(s[1..])
  }

  /** One past the last character not removed by String.trim() from the right. */
  function TrimEnd(s: string): (k: nat)
    ensures k <= |s|
    ensures forall i :: k <= i < |s| ==> IsTrimmable(s[i])
    ensures 0 < k ==> !IsTrimmable(s[k - 1])
  {
    if s == [] || !IsTrimmable(s[|s| - 1]) then |s| else TrimEnd(s[..|s| - 1])
  }

  /** String.trim(). */
  function Trim(s: string): (r: string)
    ensures |r| <= |s|
    ensures r == [] || (!IsTrimmable(r[0]) && !IsTrimmable(r[|r| - 1]))
  {
    var a := TrimStart(s);
    var t := s[a..];
    t[..TrimEnd(t)]
  }

  /** t occurs in s starting at position i. */
  predicate OccursAt(s: string, t: string, i: int)
  {
    0 <= i && i + |t| <= |s| && s[i..i + |t|] == t
  }

  /** String.indexOf(t, from) for a non-empty t: the first occurrence at or after from, or -1. */
  function IndexOf(s: string, t: string, from: int): (r: int)
    requires |t| > 0
    ensures r == -1 || (from <= r && OccursAt(s, t, r))
    ensures r == -1 ==> forall i :: from <= i ==> !OccursAt(s, t, i)
    ensures r != -1 ==> forall i :: from <= i < r ==> !OccursAt(s, t, i)
    decreases |s| - from
  {
    if from < 0 then IndexOf(s, t, 0)
    else if from + |t| > |s| then -1
    else if s[from..from + |t|] == t then from
    else IndexOf(s, t, from + 1)
  }

  /** String.indexOf(c, from) for one character. */
  function IndexOfChar(s: string, c: char, from: int): (r: int)
    ensures r == -1 || (0 <= r && from <= r < |s| && s[r] == c)
    ensures r == -1 ==> forall i :: from <= i < |s| && 0 <= i ==> s[i] != c
    ensures r != -1 ==> forall i :: from <= i < r && 0 <= i ==> s[i] != c
    decreases |s| - from
  {
    if from < 0 then IndexOfChar(s, c, 0)
    else if from >= |s| then -1
    else if s[from] == c then from
    else IndexOfChar(s, c, from + 1)
  }

  /** String.replace(target, replacement): every non-overlapping occurrence, left to right. */
  function Replace(s: string, target: string, repl: string): (r: string)
    requires |target| > 0
    decreases |s|
  {
    if |s| < |target| then s
    else if s[..|target|] == target then repl + Replace(s[|target|..], target, repl)
    else [s[0]] + Replace(s[1..], target, repl)
  }

  /** String.replace with an empty target: the replacement before every character and at
    * the end. */
  function Interleave(s: string, repl: string): string
  {
    if s == [] then repl else repl + [s[0]] + Interleave(s[1..], repl)
  }

  /** String.replace(target, replacement) for any target, the empty one included. */
  function ReplaceLiteral(s: string, target: string, repl: string): string
  {
    if target == [] then Interleave(s, repl) else Replace(s, target, repl)
  }

  /** What String.split does after cutting: the empty fields at the end removed. */
  function DropTrailingEmpty(fs: seq<string>): (r: seq<string>)
    ensures |r| <= |fs| && r == fs[..|r|]
    ensures r == [] || r[|r| - 1] != ""
  {
    if fs == [] then []
    else if fs[|fs| - 1] == "" then DropTrailingEmpty(fs[..|fs| - 1])
    else fs
  }

  /** Only empty fields are dropped. */
  lemma {:induction false} DropTrailingEmptyRest(fs: seq<string>)
    ensures forall j :: |DropTrailingEmpty(fs)| <= j < |fs| ==> fs[j] == ""
  {
    if fs != [] && fs[|fs| - 1] == "" {
      DropTrailingEmptyRest(fs[..|fs| - 1]);
    }
  }

  /** Join parts with sep between consecutive ones (String.join, "sep".join(parts)). */
  function Join(sep: string, parts: seq<string>): (r: string)
    ensures parts == [] ==> r == []
    ensures |parts| == 1 ==> r == parts[0]
  {
    if parts == [] then [] else if |parts| == 1 then parts[0] else parts[0] + sep + Join(sep, parts[1..])
  }

  /** Appending one more part adds a separator and the part. */
  lemma {:induction false} JoinSnoc(sep: string, parts: seq<string>, x: string)
    requires parts != []
    ensures Join(sep, parts + [x]) == Join(sep, parts) + sep + x
  {
    if |parts| == 1 {
      assert parts + [x] == [parts[0], x];
    } else {
      assert (parts + [x])[1..] == parts[1..] + [x];
      JoinSnoc(sep, parts[1..], x);
    }
  }

  /** The parts written one after another. */
  function Concat(parts: seq<string>): (r: string)
    ensures parts == [] ==> r == []
  {
    if parts == [] then [] else Concat(parts[..|parts| - 1]) + parts[|parts| - 1]
  }

  /** Character.isUpperCase on the ASCII range. */
  predicate IsUpper(c: char) { 'A' <= c <= 'Z' }

  /** Lexicographic order on code points (Python's string comparison, Java's compareTo sign). */
  predicate LexLe(a: string, b: string)
  {
    a == [] || (b != [] && (a[0] < b[0] || (a[0] == b[0] && LexLe(a[1..], b[1..]))))
  }

  lemma {:induction false} LexLeTotal(a: string, b: string)
    ensures LexLe(a, b) || LexLe(b, a)
  {
    if a != [] && b != [] && a[0] == b[0] { LexLeTotal(a[1..], b[1..]); }
  }

  lemma {:induction false} LexLeReflexive(a: string)
    ensures LexLe(a, a)
  {
    if a != [] { LexLeReflexive(a[1..]); }
  }

  lemma {:induction false} LexLeAntisymmetric(a: string, b: string)
    requires LexLe(a, b) && LexLe(b, a)
    ensures a == b
  {
    if a != [] && b != [] {
      LexLeAntisymmetric(a[1..], b[1..]);
      assert a == [a[0]] + a[1..] && b == [b[0]] + b[1..];
    }
  }

  lemma {:induction false} LexLeTransitive(a: string, b: string, c: string)
    requires LexLe(a, b) && LexLe(b, c)
    ensures LexLe(a, c)
  {
    if a != [] && b != [] && c != [] && a[0] == b[0] && b[0] == c[0] {
      LexLeTransitive(a[1..], b[1..], c[1..]);
    }
  }

  /** Decimal digits of a natural number, as %d and Integer.toString print it. */
  function NatToString(n: nat): (r: string)
    ensures |r| > 0 && forall i :: 0 <= i < |r| ==> '0' <= r[i] <= '9'
  {
    if n < 10 then [DigitChar(n)] else NatToString(n / 10) + [DigitChar(n % 10)]
  }

  function DigitChar(d: nat): (c: char)
    requires d < 10
    ensures '0' <= c <= '9' && c as int - '0' as int == d
  {
    ('0' as int + d) as char
  }

  /** Decimal printing of any int, with a leading '-' for negatives. */
  function IntToString(n: int): (r: string)
    ensures |r| > 0
    ensures n >= 0 ==> r == NatToString(n)
    ensures n < 0 ==> r == "-" + NatToString(-n)
  {
    if n >= 0 then NatToString(n) else "-" + NatToString(-n)
  }

  /** Java's `text.split("\\s+")` cut at every run of whitespace, before dropping the empty
    * fields at the end. */
  function SpaceFields(s: string): (r: seq<string>)
    ensures |r| >= 1
    decreases |s|
  {
    if s == [] then [""]
    else if IsRegexSpace(s[0]) then [""] + SpaceFields(s[SpaceRun(s)..])
    else
      var rest := SpaceFields(s[1..]);
      [[s[0]] + rest[0]] + rest[1..]
  }

  /** The length of the run of whitespace at the start of s. */
  function SpaceRun(s: string): (k: nat)
    ensures k <= |s|
    ensures s != [] && IsRegexSpace(s[0]) ==> k >= 1
    ensures forall i :: 0 <= i < k ==> IsRegexSpace(s[i])
  {
    if s != [] && IsRegexSpace(s[0]) then 1 + SpaceRun(s[1..]) else 0
  }

  /** `Pattern.compile("\\s+").split(s)`: the text itself without whitespace; otherwise
    * the fields less the empty ones at the end. */
  function SplitSpaces(s: string): seq<string>
  {
    if forall i :: 0 <= i < |s| ==> !IsRegexSpace(s[i]) then [s] else DropTrailingEmpty(SpaceFields(s))
  }

  /** No field holds whitespace. */
  lemma {:induction false} SpaceFieldsNoSpace(s: string)
    ensures forall f :: f in SpaceFields(s) ==> forall i :: 0 <= i < |f| ==> !IsRegexSpace(f[i])
    decreases |s|
  {
    if s != [] {
      if IsRegexSpace(s[0]) {
        SpaceFieldsNoSpace(s[SpaceRun(s)..]);
      } else {
        SpaceFieldsNoSpace(s[1..]);
        var rest := SpaceFields(s[1..]);
        assert rest[0] in rest;
        forall f | f in SpaceFields(s)
          ensures forall i :: 0 <= i < |f| ==> !IsRegexSpace(f[i])
        {
          if f != [s[0]] + rest[0] {
            assert f in rest;
          }
        }
      }
    }
  }

  /** The tokens of a split hold no whitespace. */
  lemma SplitSpacesNoSpace(s: string)
    ensures forall t :: t in SplitSpaces(s) ==> forall i :: 0 <= i < |t| ==> !IsRegexSpace(t[i])
  {
    SpaceFieldsNoSpace(s);
    var fs := SpaceFields(s);
    var r := DropTrailingEmpty(fs);
    forall t | t in r
      ensures t in fs
    {
      var j :| 0 <= j < |r| && r[j] == t;
      assert fs[j] == t;
    }
  }
}
