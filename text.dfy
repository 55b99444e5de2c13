/**
 * The Python string primitives the modelled code relies on: whitespace
 * splitting and stripping (str.split(), str.strip()), joining, ASCII
 * lower-casing, substring search (str.find, str.rfind, `in`), decimal
 * formatting (str(n), the 04d format) and int() parsing.
 */
module Text {
  import opened Wrappers

  /** The characters str.split() and str.strip() treat as whitespace. */
  predicate IsSpace(c: char) {
    c == ' ' || ('\t' <= c <= '\r') || ('\U{1c}' <= c <= '\U{1f}')
    || c == '\U{85}' || c == '\U{a0}' || c == '\U{1680}'
    || ('\U{2000}' <= c <= '\U{200a}') || c == '\U{2028}' || c == '\U{2029}'
    || c == '\U{202f}' || c == '\U{205f}' || c == '\U{3000}'
  }

  /** A token of str.split(): non-empty, without whitespace. */
  predicate IsWord(w: string) {
    w != [] && forall i :: 0 <= i < |w| ==> !IsSpace(w[i])
  }

  /** Length of the run of non-whitespace characters at the front of s. */
  function TokenLen(s: string): (k: nat)
    ensures k <= |s|
    ensures forall i :: 0 <= i < k ==> !IsSpace(s[i])
    ensures k < |s| ==> IsSpace(s[k])
  {
    if s == [] || IsSpace(s[0]) then 0 else 1 + TokenLen(s[1..])
  }

  /** str.split() with no separator: the maximal whitespace-free runs, in order. */
  function Words(s: string): (ws: seq<string>)
    ensures forall i :: 0 <= i < |ws| ==> IsWord(ws[i])
    decreases |s|
  {
    if s == [] then []
    else if IsSpace(s[0]) then Words(s[1..])
    else
      var k := TokenLen(s);
      [s[..k]] + Words(s[k..])
  }

  /** sep.join(ws). */
  function Join(ws: seq<string>, sep: string): string {
    if ws == [] then ""
    else if |ws| == 1 then ws[0]
    else ws[0] + sep + Join(ws[1..], sep)
  }

  /** A string yields no tokens exactly when every character of it is whitespace. */
  lemma {:induction false} NoWordsIffAllSpace(s: string)
    ensures Words(s) == [] <==> forall i :: 0 <= i < |s| ==> IsSpace(s[i])
    decreases |s|
  {
    if s != [] && IsSpace(s[0]) {
      NoWordsIffAllSpace(s[1..]);
      assert forall i :: 1 <= i < |s| ==> s[i] == s[1..][i - 1];
    }
  }

  /** A word followed by whitespace (or nothing) is split off as the first token. */
  lemma WordsAfterWord(w: string, t: string)
    requires IsWord(w)
    requires t == [] || IsSpace(t[0])
    ensures Words(w + t) == [w] + Words(t)
  {
    var s := w + t;
    TokenLenAfterRun(w, t);
    assert s[..|w|] == w && s[|w|..] == t;
  }

  /** A whitespace-free run followed by whitespace (or nothing) is the token length. */
  lemma {:induction false} TokenLenAfterRun(w: string, t: string)
    requires forall i :: 0 <= i < |w| ==> !IsSpace(w[i])
    requires t == [] || IsSpace(t[0])
    ensures TokenLen(w + t) == |w|
  {
    if w != [] {
      assert (w + t)[1..] == w[1..] + t;
      TokenLenAfterRun(w[1..], t);
    } else {
      assert w + t == t;
    }
  }

  /** Splitting words joined by single spaces gives back the words. */
  lemma {:induction false} WordsOfJoin(ws: seq<string>)
    requires forall i :: 0 <= i < |ws| ==> IsWord(ws[i])
    ensures Words(Join(ws, " ")) == ws
  {
    if |ws| == 1 {
      WordsAfterWord(ws[0], "");
      assert ws[0] + "" == ws[0];
    } else if |ws| > 1 {
      var rest := Join(ws[1..], " ");
      WordsAfterWord(ws[0], " " + rest);
      assert ws[0] + " " + rest == ws[0] + (" " + rest);
      assert (" " + rest)[1..] == rest;
      WordsOfJoin(ws[1..]);
      assert [ws[0]] + ws[1..] == ws;
    }
  }

  /** A string that starts with a non-whitespace character has at least one token. */
  lemma WordsNonEmpty(s: string)
    requires s != [] && !IsSpace(s[0])
    ensures Words(s) != []
  {
  }

  function LowerChar(c: char): char {
    if 'A' <= c <= 'Z' then (c as int + 32) as char else c
  }

  /** str.lower(), on the ASCII letters. */
  function Lower(s: string): (r: string)
    ensures |r| == |s|
    ensures forall i :: 0 <= i < |s| ==> r[i] == LowerChar(s[i])
  {
    seq(|s|, i requires 0 <= i < |s| => LowerChar(s[i]))
  }

  predicate StartsWith(s: string, p: string) {
    |p| <= |s| && s[..|p|] == p
  }

  predicate OccursAt(s: string, p: string, i: nat) {
    i + |p| <= |s| && s[i..i + |p|] == p
  }

  function FindFrom(s: string, p: string, i: nat): (r: Option<nat>)
    requires i <= |s|
    ensures r.Some? ==> i <= r.value && r.value + |p| <= |s|
    decreases |s| - i
  {
    if OccursAt(s, p, i) then Some(i)
    else if i == |s| then None
    else FindFrom(s, p, i + 1)
  }

  /** FindFrom(s, p, i) is the first occurrence of p at or after i, if any. */
  lemma {:induction false} FindFromSpec(s: string, p: string, i: nat)
    requires i <= |s|
    ensures var r := FindFrom(s, p, i);
            && (r.Some? ==> OccursAt(s, p, r.value) && forall j :: i <= j < r.value ==> !OccursAt(s, p, j))
            && (r.None? ==> forall j :: i <= j <= |s| ==> !OccursAt(s, p, j))
    decreases |s| - i
  {
    if !OccursAt(s, p, i) && i < |s| {
      FindFromSpec(s, p, i + 1);
    }
  }

  /** str.find: the first index at which p occurs in s. */
  function Find(s: string, p: string): Option<nat> {
    FindFrom(s, p, 0)
  }

  /** str.find returns an occurrence with none before it, and fails only when p occurs nowhere. */
  lemma FindSpec(s: string, p: string)
    ensures Find(s, p).Some? ==> OccursAt(s, p, Find(s, p).value) && forall j :: 0 <= j < Find(s, p).value ==> !OccursAt(s, p, j)
    ensures Find(s, p).None? ==> forall j :: 0 <= j <= |s| ==> !OccursAt(s, p, j)
  {
    FindFromSpec(s, p, 0);
  }

  /** `p in s`. */
  predicate Contains(s: string, p: string) {
    Find(s, p).Some?
  }

  function FindLastFrom(s: string, p: string, i: nat): (r: Option<nat>)
    requires i <= |s|
    ensures r.Some? ==> r.value <= i && r.value + |p| <= |s|
  {
    if OccursAt(s, p, i) then Some(i)
    else if i == 0 then None
    else FindLastFrom(s, p, i - 1)
  }

  /** FindLastFrom(s, p, i) is the last occurrence of p at or before i, if any. */
  lemma {:induction false} FindLastFromSpec(s: string, p: string, i: nat)
    requires i <= |s|
    ensures var r := FindLastFrom(s, p, i);
            && (r.Some? ==> OccursAt(s, p, r.value) && forall j :: r.value < j <= i ==> !OccursAt(s, p, j))
            && (r.None? ==> forall j :: 0 <= j <= i ==> !OccursAt(s, p, j))
  {
    if !OccursAt(s, p, i) && i > 0 {
      FindLastFromSpec(s, p, i - 1);
    }
  }

  /** str.rfind: the last index at which p occurs in s. */
  function FindLast(s: string, p: string): Option<nat> {
    FindLastFrom(s, p, |s|)
  }

  /** str.rfind returns an occurrence with none after it, and fails only when p occurs nowhere. */
  lemma FindLastSpec(s: string, p: string)
    ensures FindLast(s, p).Some? ==> OccursAt(s, p, FindLast(s, p).value) && forall j :: FindLast(s, p).value < j <= |s| ==> !OccursAt(s, p, j)
    ensures FindLast(s, p).None? ==> forall j :: 0 <= j <= |s| ==> !OccursAt(s, p, j)
  {
    FindLastFromSpec(s, p, |s|);
  }

  /** `p in s` holds exactly when there is a last occurrence too. */
  lemma ContainsIffFindLast(s: string, p: string)
    ensures Contains(s, p) <==> FindLast(s, p).Some?
  {
    FindSpec(s, p);
    FindLastSpec(s, p);
    if FindLast(s, p).Some? {
      var j := FindLast(s, p).value;
      assert Find(s, p).None? ==> !OccursAt(s, p, j);
    }
    if Find(s, p).Some? {
      var j := Find(s, p).value;
      assert FindLast(s, p).None? ==> !OccursAt(s, p, j);
    }
  }

  /** s without its leading whitespace. */
  function TrimLeft(s: string): (r: string)
    ensures |r| <= |s|
    ensures r == [] || !IsSpace(r[0])
  {
    if s != [] && IsSpace(s[0]) then TrimLeft(s[1..]) else s
  }

  /** TrimLeft drops exactly the leading whitespace: what it keeps is a suffix, what it drops is blank. */
  lemma {:induction false} TrimLeftSpec(s: string)
    ensures TrimLeft(s) == s[|s| - |TrimLeft(s)|..]
    ensures forall i :: 0 <= i < |s| - |TrimLeft(s)| ==> IsSpace(s[i])
  {
    if s != [] && IsSpace(s[0]) {
      TrimLeftSpec(s[1..]);
    }
  }

  /** s without its trailing whitespace. */
  function TrimRight(s: string): (r: string)
    ensures |r| <= |s|
    ensures r == [] || !IsSpace(r[|r| - 1])
    ensures r != [] ==> r[0] == s[0]
  {
    if s != [] && IsSpace(s[|s| - 1]) then TrimRight(s[..|s| - 1]) else s
  }

  /** TrimRight drops exactly the trailing whitespace: what it keeps is a prefix, what it drops is blank. */
  lemma {:induction false} TrimRightSpec(s: string)
    ensures TrimRight(s) == s[..|TrimRight(s)|]
    ensures forall i :: |TrimRight(s)| <= i < |s| ==> IsSpace(s[i])
  {
    if s != [] && IsSpace(s[|s| - 1]) {
      TrimRightSpec(s[..|s| - 1]);
    }
  }

  /** str.strip(): s without its leading and trailing whitespace. */
  function Strip(s: string): (r: string)
    ensures r == [] || (!IsSpace(r[0]) && !IsSpace(r[|r| - 1]))
  {
    TrimRight(TrimLeft(s))
  }

  predicate IsStripped(s: string) {
    s == [] || (!IsSpace(s[0]) && !IsSpace(s[|s| - 1]))
  }

  /** Stripping is idempotent: a stripped string is its own strip. */
  lemma StripStripped(s: string)
    requires IsStripped(s)
    ensures Strip(s) == s
  {
  }

  predicate IsDigit(c: char) {
    '0' <= c <= '9'
  }

  predicate AllDigits(s: string) {
    forall i :: 0 <= i < |s| ==> IsDigit(s[i])
  }

  function DigitChar(d: nat): (c: char)
    requires d < 10
  {
    ('0' as int + d) as char
  }

  /** The number a string of decimal digits denotes. */
  function DigitsValue(s: string): nat
    requires AllDigits(s)
  {
    if s == [] then 0
    else 10 * DigitsValue(s[..|s| - 1]) + (s[|s| - 1] as int - '0' as int)
  }

  /** str(n) for a non-negative n: its decimal digits, without leading zeros. */
  function NatToString(n: nat): (r: string)
    ensures r != [] && AllDigits(r) && DigitsValue(r) == n
    ensures |r| > 1 ==> r[0] != '0'
    decreases n
  {
    if n < 10 then [DigitChar(n)]
    else
      var r := NatToString(n / 10) + [DigitChar(n % 10)];
      assert r[..|r| - 1] == NatToString(n / 10);
      r
  }

  /** str(n). */
  function IntToString(n: int): string {
    if n < 0 then "-" + NatToString(-n) else NatToString(n)
  }

  function Repeat(c: char, k: nat): (r: string)
    ensures |r| == k && forall i :: 0 <= i < k ==> r[i] == c
  {
    if k == 0 then [] else [c] + Repeat(c, k - 1)
  }

  /** Leading zeros do not change the value of a digit string. */
  lemma {:induction false} LeadingZeros(z: nat, s: string)
    requires AllDigits(s)
    ensures AllDigits(Repeat('0', z) + s)
    ensures DigitsValue(Repeat('0', z) + s) == DigitsValue(s)
    decreases |s|, z
  {
    var t := Repeat('0', z) + s;
    assert AllDigits(t);
    if s == [] {
      if z > 0 {
        assert t == Repeat('0', z - 1) + "0";
        assert t[..|t| - 1] == Repeat('0', z - 1) + [];
        LeadingZeros(z - 1, []);
      }
    } else {
      assert t[..|t| - 1] == Repeat('0', z) + s[..|s| - 1];
      LeadingZeros(z, s[..|s| - 1]);
    }
  }

  /** f"{n:04d}" for a non-negative n: its digits, padded with zeros to four places. */
  function ZeroPad4(n: nat): (r: string)
    ensures AllDigits(r) && DigitsValue(r) == n
    ensures |r| >= 4
  {
    var d := NatToString(n);
    if |d| < 4 then
      LeadingZeros(4 - |d|, d);
      Repeat('0', 4 - |d|) + d
    else d
  }

  /** A number below 10^4 takes at most four digits, so 04d pads it to exactly four. */
  lemma ZeroPad4Width(n: nat)
    requires n < 10000
    ensures |ZeroPad4(n)| == 4
  {
    assert |NatToString(n / 1000)| == 1;
    assert |NatToString(n / 100)| <= 2;
    assert |NatToString(n / 10)| <= 3;
    assert |NatToString(n)| <= 4;
  }

  /** What Python's int() accepts after the sign: digits, with single underscores between them. */
  predicate IsDigitGroup(s: string)
    decreases |s|
  {
    && s != [] && IsDigit(s[0])
    && (|s| == 1 || (if s[1] == '_' then |s| > 2 && IsDigitGroup(s[2..]) else IsDigitGroup(s[1..])))
  }

  /** The digits of s, in order; on a digit group, s without its underscores. */
  function DropUnderscores(s: string): (r: string)
    ensures AllDigits(r)
  {
    if s == [] then []
    else (if IsDigit(s[0]) then [s[0]] else []) + DropUnderscores(s[1..])
  }

  /** CPython's default int_max_str_digits: int() of a decimal string with more digits raises ValueError. */
  const MaxStrDigits := 4300

  /** The unsigned part of int(s): a digit group of at most MaxStrDigits digits, underscores not counted. */
  function ParseUnsigned(s: string): Option<nat> {
    if IsDigitGroup(s) && |DropUnderscores(s)| <= MaxStrDigits then Some(DigitsValue(DropUnderscores(s))) else None
  }

  /** str(n) has at most MaxStrDigits digits, so int() accepts it. */
  predicate WithinDigitLimit(n: int) {
    |NatToString(if n < 0 then -n else n)| <= MaxStrDigits
  }

  /** int(s) on a str: None where Python raises ValueError. */
  function ParseInt(s: string): Option<int> {
    var t := Strip(s);
    if t != [] && t[0] == '-' then
      match ParseUnsigned(t[1..])
      case Some(v) => Some(-(v as int))
      case None => None
    else if t != [] && t[0] == '+' then
      match ParseUnsigned(t[1..])
      case Some(v) => Some(v)
      case None => None
    else
      match ParseUnsigned(t)
      case Some(v) => Some(v)
      case None => None
  }

  lemma {:induction false} DropUnderscoresOfDigits(s: string)
    requires AllDigits(s)
    ensures DropUnderscores(s) == s
  {
    if s != [] {
      DropUnderscoresOfDigits(s[1..]);
    }
  }

  /** A non-empty run of digits is a digit group. */
  lemma {:induction false} DigitGroupOfDigits(s: string)
    requires s != [] && AllDigits(s)
    ensures IsDigitGroup(s)
    decreases |s|
  {
    if |s| > 1 {
      DigitGroupOfDigits(s[1..]);
    }
  }

  /** The digits of str(m) parse back to m, unless there are more than MaxStrDigits of them. */
  lemma ParseUnsignedOfNatToString(m: nat)
    ensures ParseUnsigned(NatToString(m)) == if |NatToString(m)| <= MaxStrDigits then Some(m) else None
  {
    var d := NatToString(m);
    DropUnderscoresOfDigits(d);
    DigitGroupOfDigits(d);
  }

  /** int(str(n)) == n within the digit limit; beyond it int() raises. */
  lemma ParseIntOfIntToString(n: int)
    ensures ParseInt(IntToString(n)) == if WithinDigitLimit(n) then Some(n) else None
  {
    var s := IntToString(n);
    var d := NatToString(if n < 0 then -n else n);
    assert IsStripped(s) by {
      assert s[|s| - 1] == d[|d| - 1];
    }
    StripStripped(s);
    ParseUnsignedOfNatToString(if n < 0 then -n else n);
    if n < 0 {
      assert s[1..] == d;
    }
  }

  /** Lower-casing works character by character, so it distributes over concatenation. */
  lemma LowerConcat(a: string, b: string)
    ensures Lower(a + b) == Lower(a) + Lower(b)
  {
    assert forall i :: 0 <= i < |a + b| ==> Lower(a + b)[i] == (Lower(a) + Lower(b))[i];
  }

  /** A string without upper-case ASCII letters is its own lower-case form. */
  lemma LowerOfNoUpper(s: string)
    requires forall i :: 0 <= i < |s| ==> !('A' <= s[i] <= 'Z')
    ensures Lower(s) == s
  {
    assert forall i :: 0 <= i < |s| ==> Lower(s)[i] == s[i];
  }

  /** str(n) has no letters, so lower-casing leaves it alone. */
  lemma LowerOfIntToString(n: int)
    ensures Lower(IntToString(n)) == IntToString(n)
  {
    var s := IntToString(n);
    var d := NatToString(if n < 0 then -n else n);
    assert forall i :: 0 <= i < |s| ==> s[i] == '-' || IsDigit(s[i]) by {
      if n < 0 {
        assert forall i :: 1 <= i < |s| ==> s[i] == d[i - 1];
      }
    }
    LowerOfNoUpper(s);
  }

  /** A character of s that differs from the one p needs there rules out an occurrence of p at j. */
  lemma NotOccursAtChar(s: string, p: string, j: nat, k: nat)
    requires k < |p| && j + k < |s| && s[j + k] != p[k]
    ensures !OccursAt(s, p, j)
  {
    if j + |p| <= |s| {
      assert s[j..j + |p|][k] == s[j + k];
    }
  }

  /** A prefix of a is a prefix of a + b. */
  lemma StartsWithConcat(a: string, b: string, p: string)
    requires StartsWith(a, p)
    ensures StartsWith(a + b, p)
  {
    assert (a + b)[..|p|] == a[..|p|];
  }

  /** A character of s that differs from the one p has there rules out p as a prefix. */
  lemma NotStartsWithChar(s: string, p: string, k: nat)
    requires k < |p| && k < |s| && s[k] != p[k]
    ensures !StartsWith(s, p)
  {
    if |p| <= |s| {
      assert s[..|p|][k] == s[k];
    }
  }

  /** str.find returns the first occurrence. */
  lemma FindIsFirst(s: string, p: string, k: nat)
    requires OccursAt(s, p, k)
    requires forall j :: 0 <= j < k ==> !OccursAt(s, p, j)
    ensures Find(s, p) == Some(k)
  {
    FindSpec(s, p);
  }

  /** An occurrence str.find locates in a is also the first in a + b. */
  lemma FindInPrefix(a: string, b: string, p: string)
    requires Find(a, p).Some?
    ensures Find(a + b, p) == Find(a, p)
  {
    FindSpec(a, p);
    var k := Find(a, p).value;
    assert (a + b)[k..k + |p|] == a[k..k + |p|];
    forall j | 0 <= j < k ensures !OccursAt(a + b, p, j) {
      assert !OccursAt(a, p, j);
      assert (a + b)[j..j + |p|] == a[j..j + |p|];
    }
    FindIsFirst(a + b, p, k);
  }

  /** An occurrence at k is the first when no earlier position matches p's first character. */
  lemma FindByFirstChar(s: string, p: string, k: nat)
    requires |p| >= 1 && OccursAt(s, p, k)
    requires forall j :: 0 <= j < k ==> s[j] != p[0]
    ensures Find(s, p) == Some(k)
  {
    forall j | 0 <= j < k ensures !OccursAt(s, p, j) {
      NotOccursAtChar(s, p, j, 0);
    }
    FindIsFirst(s, p, k);
  }

  /** An occurrence at k is the first when no earlier position matches p's first two characters. */
  lemma FindByFirstTwoChars(s: string, p: string, k: nat)
    requires |p| >= 2 && OccursAt(s, p, k)
    requires forall j :: 0 <= j < k ==> s[j] != p[0] || s[j + 1] != p[1]
    ensures Find(s, p) == Some(k)
  {
    forall j | 0 <= j < k ensures !OccursAt(s, p, j) {
      if s[j] != p[0] {
        NotOccursAtChar(s, p, j, 0);
      } else {
        NotOccursAtChar(s, p, j, 1);
      }
    }
    FindIsFirst(s, p, k);
  }

  /** p is a prefix of s when their first |p| characters agree. */
  lemma StartsWithByChars(s: string, p: string)
    requires |p| <= |s| && forall i :: 0 <= i < |p| ==> s[i] == p[i]
    ensures StartsWith(s, p)
  {
  }

  /** str.find fails when p occurs nowhere. */
  lemma FindIsAbsent(s: string, p: string)
    requires forall j :: 0 <= j <= |s| ==> !OccursAt(s, p, j)
    ensures Find(s, p) == None
  {
    FindSpec(s, p);
  }

  /** str.rfind returns the last occurrence. */
  lemma FindLastIsLast(s: string, p: string, k: nat)
    requires OccursAt(s, p, k)
    requires forall j :: k < j <= |s| ==> !OccursAt(s, p, j)
    ensures FindLast(s, p) == Some(k)
  {
    FindLastSpec(s, p);
  }

  /** A pattern without spaces that does not occur in a cannot start within a in a + " " + b. */
  lemma NoOccurrenceBeforeSpace(a: string, b: string, p: string, j: nat)
    requires p != [] && forall k :: 0 <= k < |p| ==> p[k] != ' '
    requires !OccursAt(a, p, j)
    requires j <= |a|
    ensures !OccursAt(a + " " + b, p, j)
  {
    var s := a + " " + b;
    if j + |p| <= |a| {
      assert s[j..j + |p|] == a[j..j + |p|];
    } else if j + |p| <= |s| {
      assert s[|a|] == ' ';
      NotOccursAtChar(s, p, j, |a| - j);
    }
  }

  /** Past a and the space, occurrences in a + " " + b are those in b, shifted. */
  lemma OccurrenceAfterSpace(a: string, b: string, p: string, j: nat)
    requires |a| < j
    ensures OccursAt(a + " " + b, p, j) == OccursAt(b, p, j - |a| - 1)
  {
    var s := a + " " + b;
    if j + |p| <= |s| {
      assert s[j..j + |p|] == b[j - |a| - 1..j - |a| - 1 + |p|];
    }
  }

  /**
   * A pattern without spaces that does not occur in a is found in
   * a + " " + b exactly where it is found in b, shifted past a and the space.
   */
  lemma FindPastSpace(a: string, b: string, p: string)
    requires p != [] && forall k :: 0 <= k < |p| ==> p[k] != ' '
    requires !Contains(a, p)
    ensures Find(a + " " + b, p) == (match Find(b, p) case Some(i) => Some(|a| + 1 + i) case None => None)
  {
    var s := a + " " + b;
    FindSpec(a, p);
    FindSpec(b, p);
    assert forall j :: 0 <= j <= |a| ==> !OccursAt(a, p, j);
    forall j | 0 <= j <= |a| ensures !OccursAt(s, p, j) {
      NoOccurrenceBeforeSpace(a, b, p, j);
    }
    forall j | |a| < j <= |s| ensures OccursAt(s, p, j) == OccursAt(b, p, j - |a| - 1) {
      OccurrenceAfterSpace(a, b, p, j);
    }
    match Find(b, p)
    case Some(i) =>
      FindIsFirst(s, p, |a| + 1 + i);
    case None =>
      FindIsAbsent(s, p);
  }

  /** Dropping k characters of a + b, with k within a. */
  lemma DropConcat(a: string, b: string, k: nat)
    requires k <= |a|
    ensures (a + b)[k..] == a[k..] + b
  {
  }

  /** A concatenation is stripped when its first and last characters are not blank. */
  lemma StrippedConcat(a: string, b: string)
    requires a != [] && b != [] && !IsSpace(a[0]) && !IsSpace(b[|b| - 1])
    ensures IsStripped(a + b)
  {
    assert (a + b)[0] == a[0] && (a + b)[|a + b| - 1] == b[|b| - 1];
  }

  /** The two halves of a concatenation. */
  lemma SplitConcat(a: string, b: string)
    ensures (a + b)[..|a|] == a && (a + b)[|a|..] == b
  {
  }

  /** Stripping drops one space of padding before a stripped string. */
  lemma StripSpaceBefore(y: string)
    requires IsStripped(y)
    ensures Strip(" " + y) == y
  {
    assert (" " + y)[1..] == y;
    assert TrimLeft(" " + y) == TrimLeft(y) == y;
  }

  /** A leading space makes no difference to the strip. */
  lemma StripLeadingSpace(s: string)
    ensures Strip(" " + s) == Strip(s)
  {
    assert (" " + s)[1..] == s;
    assert TrimLeft(" " + s) == TrimLeft(s);
  }

  /** Stripping drops one space of padding after a stripped string. */
  lemma StripSpaceAfter(y: string)
    requires IsStripped(y)
    ensures Strip(y + " ") == y
  {
    var t := y + " ";
    assert t[..|y|] == y;
    if y == [] {
      assert t[1..] == [];
      assert TrimLeft(t) == TrimLeft([]) == [];
    } else {
      assert TrimLeft(t) == t;
      assert TrimRight(t) == TrimRight(y) == y;
    }
  }

  /** Stripping drops one space of padding on both sides of a stripped string. */
  lemma StripSpaceAround(y: string)
    requires IsStripped(y)
    ensures Strip(" " + y + " ") == y
  {
    var t := " " + y + " ";
    assert t[1..] == y + " ";
    StripSpaceAfter(y);
    assert TrimLeft(t) == TrimLeft(y + " ");
  }
}
