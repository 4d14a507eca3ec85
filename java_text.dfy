/**
 * The pieces of java.lang.String and java.lang.Integer that the plugin relies on:
 * String.trim, Integer.parseInt, the decimal rendering of an int in string
 * concatenation, String.equalsIgnoreCase, and the separator-joined and
 * newline-terminated text layouts the plugin writes, each with its inverse.
 */
module JavaText {
  import opened Wrappers

  /* ---------------------------------------------------------------- trim */

  /** String.trim removes every leading and trailing char whose code is at most U+0020. */
  predicate IsSpace(c: char) {
    c <= ' '
  }

  predicate AllSpace(s: string) {
    forall k :: 0 <= k < |s| ==> IsSpace(s[k])
  }

  function TrimStart(s: string): (r: string)
    ensures |r| <= |s| && r == s[|s| - |r|..]
    ensures AllSpace(s[..|s| - |r|])
    ensures |r| > 0 ==> !IsSpace(r[0])
  {
    if |s| > 0 && IsSpace(s[0]) then TrimStart(s[1..]) else s
  }

  function TrimEnd(s: string): (r: string)
    ensures |r| <= |s| && r == s[..|r|]
    ensures AllSpace(s[|r|..])
    ensures |r| > 0 ==> !IsSpace(r[|r| - 1])
  {
    if |s| > 0 && IsSpace(s[|s| - 1]) then TrimEnd(s[..|s| - 1]) else s
  }

  /** The number of space chars String.trim drops at the front of s. */
  function Lead(s: string): nat {
    |s| - |TrimStart(s)|
  }

  /** A prefix r of a suffix t of s is the infix of s after the |s| - |t| chars t drops. */
  lemma InfixOfSuffix(s: string, t: string, r: string)
    requires |t| <= |s| && t == s[|s| - |t|..] && |r| <= |t| && r == t[..|r|]
    ensures r == s[|s| - |t|..|s| - |t| + |r|] && s[|s| - |t| + |r|..] == t[|r|..]
    ensures |r| > 0 ==> r[0] == t[0]
  {
  }

  /** Java's String.trim: the longest infix of s that neither starts nor ends with a space char. */
  function Trim(s: string): (r: string)
    ensures Lead(s) + |r| <= |s| && r == s[Lead(s)..Lead(s) + |r|]
    ensures AllSpace(s[..Lead(s)]) && AllSpace(s[Lead(s) + |r|..])
    ensures |r| > 0 ==> !IsSpace(r[0]) && !IsSpace(r[|r| - 1])
  {
    var t := TrimStart(s);
    var r := TrimEnd(t);
    InfixOfSuffix(s, t, r);
    r
  }

  /** Trimming a second time changes nothing. */
  lemma TrimIdempotent(s: string)
    ensures Trim(Trim(s)) == Trim(s)
  {
    var r := Trim(s);
    assert TrimStart(r) == r;
    assert TrimEnd(r) == r;
  }

  /** A string trims to the empty string exactly when it consists of space chars only. */
  lemma {:induction false} TrimEmptyIff(s: string)
    ensures Trim(s) == [] <==> AllSpace(s)
  {
    var i := Lead(s);
    if Trim(s) == [] {
      assert TrimStart(s) == [];
      assert s[..i] == s;
    } else {
      assert s[i] == Trim(s)[0];
    }
  }

  lemma {:induction false} TrimStartSpaces(pad: string, x: string)
    requires AllSpace(pad)
    ensures TrimStart(pad + x) == TrimStart(x)
  {
    if |pad| > 0 {
      assert (pad + x)[1..] == pad[1..] + x;
      TrimStartSpaces(pad[1..], x);
    } else {
      assert pad + x == x;
    }
  }

  lemma {:induction false} TrimEndSpaces(x: string, pad: string)
    requires AllSpace(pad)
    ensures TrimEnd(x + pad) == TrimEnd(x)
  {
    if |pad| > 0 {
      var y := x + pad;
      assert y[..|y| - 1] == x + pad[..|pad| - 1];
      TrimEndSpaces(x, pad[..|pad| - 1]);
    } else {
      assert x + pad == x;
    }
  }

  /** Space chars around a string that neither starts nor ends with one are trimmed away. */
  lemma TrimPadded(pad: string, s: string)
    requires AllSpace(pad) && |s| > 0 && !IsSpace(s[0]) && !IsSpace(s[|s| - 1])
    ensures Trim(pad + s + pad) == s
  {
    assert pad + s + pad == pad + (s + pad);
    TrimStartSpaces(pad, s + pad);
    assert TrimStart(s + pad) == s + pad;
    TrimEndSpaces(s, pad);
  }

  /* ---------------------------------------------------------- integers */

  const IntMin: int := -0x8000_0000
  const IntMax: int := 0x7fff_ffff

  /** A Java int. */
  predicate IsInt32(v: int) {
    IntMin <= v <= IntMax
  }

  predicate IsDigit(c: char) {
    '0' <= c <= '9'
  }

  predicate AllDigits(s: string) {
    forall k :: 0 <= k < |s| ==> IsDigit(s[k])
  }

  function DigitValue(c: char): (d: nat)
    requires IsDigit(c)
    ensures d < 10
  {
    c as int - '0' as int
  }

  function DigitChar(d: nat): (c: char)
    requires d < 10
    ensures IsDigit(c) && DigitValue(c) == d
  {
    ('0' as int + d) as char
  }

  /** The value of a string of decimal digits, most significant digit first. */
  function DigitsValue(s: string): nat
    requires AllDigits(s)
  {
    if |s| == 0 then 0 else 10 * DigitsValue(s[..|s| - 1]) + DigitValue(s[|s| - 1])
  }

  /** The text after a leading sign, if any. */
  function Unsigned(s: string): string
    requires |s| > 0
  {
    if s[0] == '-' || s[0] == '+' then s[1..] else s
  }

  /** -1 after a leading '-', 1 otherwise. */
  function SignOf(s: string): int
    requires |s| > 0
  {
    if s[0] == '-' then -1 else 1
  }

  /**
   * Integer.parseInt (and new Integer(s)): an optional '-' or '+', then at least
   * one decimal digit and nothing else; the value must fit in a Java int.
   * None stands for the NumberFormatException.
   */
  function ParseInt(s: string): (r: Option<int>)
    ensures r.Some? ==> IsInt32(r.value)
    ensures r.Some? ==> |s| > 0 && (r.value < 0 ==> s[0] == '-')
    ensures r.Some? <==> |s| > 0 && |Unsigned(s)| > 0 && AllDigits(Unsigned(s))
                         && IsInt32(SignOf(s) * DigitsValue(Unsigned(s)))
    ensures r.Some? ==> r.value == SignOf(s) * DigitsValue(Unsigned(s))
  {
    if |s| == 0 then None
    else
      var digits := if s[0] == '-' || s[0] == '+' then s[1..] else s;
      if |digits| == 0 || !AllDigits(digits) then None
      else
        var v: int := if s[0] == '-' then -(DigitsValue(digits) as int) else DigitsValue(digits);
        if IsInt32(v) then Some(v) else None
  }

  /** Decimal digits of n, without leading zeros. */
  function NatToString(n: nat): (r: string)
    ensures |r| >= 1 && AllDigits(r)
    ensures DigitsValue(r) == n
    ensures |r| > 1 ==> r[0] != '0'
  {
    if n < 10 then [DigitChar(n)]
    else
      var r := NatToString(n / 10) + [DigitChar(n % 10)];
      assert r[..|r| - 1] == NatToString(n / 10);
      r
  }

  /** How string concatenation renders an int: Integer.toString. */
  function IntToString(i: int): (r: string)
    ensures |r| >= 1
    ensures forall k :: 0 <= k < |r| ==> IsDigit(r[k]) || r[k] == '-'
  {
    if i < 0 then "-" + NatToString(-i) else NatToString(i)
  }

  /** A few inputs: a '+' sign and leading zeros are accepted; spaces and letters are not. */
  lemma ParseIntSamples()
    ensures ParseInt("+5") == Some(5) && ParseInt("007") == Some(7) && ParseInt("-0") == Some(0)
    ensures ParseInt("-12") == Some(-12)
    ensures ParseInt("") == None && ParseInt("-") == None && ParseInt(" 5") == None && ParseInt("abc") == None
  {
    assert "+5"[1..] == "5" && "5"[..0] == "";
    assert "007"[..2] == "00" && "00"[..1] == "0" && "0"[..0] == "";
    assert DigitsValue("007") == 7;
    assert "-0"[1..] == "0";
    assert "-12"[1..] == "12" && "12"[..1] == "1" && "1"[..0] == "";
    assert DigitsValue("12") == 12;
    assert "-"[1..] == "";
    assert !IsDigit(" 5"[0]) && !IsDigit("abc"[0]);
  }

  /** Parsing what toString printed gives back the int. */
  lemma ParseIntToString(i: int)
    requires IsInt32(i)
    ensures ParseInt(IntToString(i)) == Some(i)
  {
    if i < 0 {
      assert IntToString(i)[1..] == NatToString(-i);
    }
  }

  /** Distinct ints print differently. */
  lemma IntToStringInjective(i: int, j: int)
    requires IntToString(i) == IntToString(j)
    ensures i == j
  {
    if i < 0 && j < 0 {
      assert IntToString(i)[1..] == NatToString(-i);
      assert IntToString(j)[1..] == NatToString(-j);
    }
  }

  /* -------------------------------------------------- equalsIgnoreCase */

  function ToLowerAscii(c: char): char {
    if 'A' <= c <= 'Z' then (c as int + 32) as char else c
  }

  function LowerAscii(s: string): (r: string)
    ensures |r| == |s|
  {
    seq(|s|, k requires 0 <= k < |s| => ToLowerAscii(s[k]))
  }

  /** String.equalsIgnoreCase, restricted to the ASCII case mapping. */
  predicate EqualsIgnoreCase(a: string, b: string) {
    |a| == |b| && forall k :: 0 <= k < |a| ==> ToLowerAscii(a[k]) == ToLowerAscii(b[k])
  }

  /** Two strings are equal ignoring case exactly when their lower-case forms are equal. */
  lemma EqualsIgnoreCaseIsLowerEquality(a: string, b: string)
    ensures EqualsIgnoreCase(a, b) <==> LowerAscii(a) == LowerAscii(b)
  {
    if LowerAscii(a) == LowerAscii(b) {
      forall k | 0 <= k < |a| ensures ToLowerAscii(a[k]) == ToLowerAscii(b[k]) {
        assert LowerAscii(a)[k] == LowerAscii(b)[k];
      }
    }
  }

  /* -------------------------------------------- joined and split text */

  /** Index of the first occurrence of c in s. */
  function IndexOf(s: string, c: char): (i: nat)
    requires c in s
    ensures i < |s| && s[i] == c && c !in s[..i]
  {
    if s[0] == c then 0 else 1 + IndexOf(s[1..], c)
  }

  lemma IndexOfUnique(s: string, c: char, i: nat)
    requires i < |s| && s[i] == c && c !in s[..i]
    ensures IndexOf(s, c) == i
  {
  }

  /** parts separated by sep, as the plugin's '+' chains and comma loops build them. */
  function Join(parts: seq<string>, sep: char): string {
    if |parts| == 0 then ""
    else if |parts| == 1 then parts[0]
    else parts[0] + [sep] + Join(parts[1..], sep)
  }

  /** The fields between the occurrences of sep: the inverse of Join. */
  function Split(s: string, sep: char): (r: seq<string>)
    ensures |r| >= 1
    decreases |s|
  {
    if sep !in s then [s]
    else
      var i := IndexOf(s, sep);
      [s[..i]] + Split(s[i + 1..], sep)
  }

  predicate NoneContains(parts: seq<string>, c: char) {
    forall k :: 0 <= k < |parts| ==> c !in parts[k]
  }

  lemma {:induction false} JoinFree(parts: seq<string>, sep: char, c: char)
    requires NoneContains(parts, c) && c != sep
    ensures c !in Join(parts, sep)
  {
    if |parts| > 1 {
      JoinFree(parts[1..], sep, c);
    }
  }

  /** Appending one part to a non-empty list adds the separator and that part at the end. */
  lemma {:induction false} JoinSnoc(parts: seq<string>, x: string, sep: char)
    requires |parts| >= 1
    ensures Join(parts + [x], sep) == Join(parts, sep) + [sep] + x
  {
    if |parts| > 1 {
      assert (parts + [x])[1..] == parts[1..] + [x];
      JoinSnoc(parts[1..], x, sep);
    }
  }

  /** Splitting a joined text at its separator gives back the parts, when no part holds the separator. */
  lemma {:induction false} SplitJoin(parts: seq<string>, sep: char)
    requires |parts| >= 1 && NoneContains(parts, sep)
    ensures Split(Join(parts, sep), sep) == parts
  {
    var p := parts[0];
    if |parts| > 1 {
      var rest := Join(parts[1..], sep);
      var s := Join(parts, sep);
      assert Split(s, sep) == [p] + Split(rest, sep) by {
        assert s == p + [sep] + rest;
        assert s[..|p|] == p && s[|p|] == sep && s[|p| + 1..] == rest;
        assert sep !in p;
        IndexOfUnique(s, sep, |p|);
      }
      assert NoneContains(parts[1..], sep) by {
        forall k | 0 <= k < |parts| - 1 ensures sep !in parts[1..][k] {
          assert parts[1..][k] == parts[k + 1];
        }
      }
      SplitJoin(parts[1..], sep);
      assert parts == [p] + parts[1..];
    } else {
      assert sep !in p;
    }
  }

  /** Each line followed by a newline, as the plugin's property files are written. */
  function Lines(ls: seq<string>): string {
    if |ls| == 0 then "" else ls[0] + "\n" + Lines(ls[1..])
  }

  lemma {:induction false} LinesAppend(a: seq<string>, b: seq<string>)
    ensures Lines(a + b) == Lines(a) + Lines(b)
  {
    if |a| > 0 {
      assert (a + b)[1..] == a[1..] + b;
      LinesAppend(a[1..], b);
    } else {
      assert a + b == b;
    }
  }

  lemma {:induction false} LinesAsJoin(ls: seq<string>)
    requires |ls| >= 1
    ensures Lines(ls) == Join(ls, '\n') + "\n"
  {
    if |ls| > 1 {
      LinesAsJoin(ls[1..]);
    }
  }

  /** The newline-terminated lines of a text. */
  function SplitLines(text: string): seq<string> {
    if |text| == 0 then [] else Split(text[..|text| - 1], '\n')
  }

  /** Reading back the lines that were written gives the same lines. */
  lemma SplitLinesOfLines(ls: seq<string>)
    requires NoneContains(ls, '\n')
    ensures SplitLines(Lines(ls)) == ls
  {
    if |ls| > 0 {
      LinesAsJoin(ls);
      var t := Lines(ls);
      assert t[..|t| - 1] == Join(ls, '\n');
      SplitJoin(ls, '\n');
    }
  }

  /** One "key=value" entry. */
  function KeyValue(key: string, value: string): string {
    key + "=" + value
  }

  /** A line split at its first '=', as a property file reader separates key and value. */
  function SplitKeyValue(line: string): (string, string) {
    if '=' in line then (line[..IndexOf(line, '=')], line[IndexOf(line, '=') + 1..]) else (line, "")
  }

  lemma SplitKeyValueOfKeyValue(key: string, value: string)
    requires '=' !in key
    ensures SplitKeyValue(KeyValue(key, value)) == (key, value)
  {
    var line := KeyValue(key, value);
    assert line[..|key|] == key;
    IndexOfUnique(line, '=', |key|);
  }

  /** A property text: one "key=value" line per pair, in order. */
  function PropsText(pairs: seq<(string, string)>): string {
    Lines(seq(|pairs|, k requires 0 <= k < |pairs| => KeyValue(pairs[k].0, pairs[k].1)))
  }

  /** Reads a property text back into its pairs (without the escapes of java.util.Properties). */
  function ParseProps(text: string): seq<(string, string)> {
    var ls := SplitLines(text);
    seq(|ls|, k requires 0 <= k < |ls| => SplitKeyValue(ls[k]))
  }

  /** Keys free of '=' and newlines and values free of newlines come back unchanged. */
  predicate Writable(pairs: seq<(string, string)>) {
    forall k :: 0 <= k < |pairs| ==> '=' !in pairs[k].0 && '\n' !in pairs[k].0 && '\n' !in pairs[k].1
  }

  lemma ParsePropsText(pairs: seq<(string, string)>)
    requires Writable(pairs)
    ensures ParseProps(PropsText(pairs)) == pairs
  {
    var ls := seq(|pairs|, k requires 0 <= k < |pairs| => KeyValue(pairs[k].0, pairs[k].1));
    forall k | 0 <= k < |ls| ensures '\n' !in ls[k] {
      assert ls[k] == pairs[k].0 + "=" + pairs[k].1;
    }
    SplitLinesOfLines(ls);
    forall k | 0 <= k < |pairs| ensures SplitKeyValue(ls[k]) == pairs[k] {
      SplitKeyValueOfKeyValue(pairs[k].0, pairs[k].1);
    }
  }

  lemma {:induction false} PropsTextAppend(a: seq<(string, string)>, b: seq<(string, string)>)
    ensures PropsText(a + b) == PropsText(a) + PropsText(b)
  {
    var la := seq(|a|, k requires 0 <= k < |a| => KeyValue(a[k].0, a[k].1));
    var lb := seq(|b|, k requires 0 <= k < |b| => KeyValue(b[k].0, b[k].1));
    var ab := a + b;
    assert seq(|ab|, k requires 0 <= k < |ab| => KeyValue(ab[k].0, ab[k].1)) == la + lb;
    LinesAppend(la, lb);
  }
}
