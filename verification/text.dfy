/**
 * The string conventions of Ruby and ActiveSupport that the upload code relies on:
 * `String#strip`, `blank?`/`present?`, `Array#join`, `String#to_i`, integer
 * interpolation and `File.basename`.
 */
module Text {

  /** Characters `String#strip` removes at either end: NUL and the ASCII whitespace. */
  const StripChars: set<char> := {'\0', '\t', '\n', '\U{B}', '\U{C}', '\r', ' '}

  /** Characters `String#to_i` skips before the number: ASCII whitespace without NUL. */
  const LeadingSpace: set<char> := {'\t', '\n', '\U{B}', '\U{C}', '\r', ' '}

  /** The class `[[:space:]]` on Unicode strings (the White_Space property), used by `blank?`. */
  predicate IsSpace(c: char) {
    || c in LeadingSpace
    || c == '\U{85}' || c == '\U{A0}' || c == '\U{1680}'
    || ('\U{2000}' <= c <= '\U{200A}')
    || c == '\U{2028}' || c == '\U{2029}' || c == '\U{202F}' || c == '\U{205F}' || c == '\U{3000}'
  }

  /** ActiveSupport's `String#blank?`: empty or whitespace only. */
  predicate IsBlank(s: string) {
    forall i :: 0 <= i < |s| ==> IsSpace(s[i])
  }

  /** ActiveSupport's `present?` on a string. */
  predicate IsPresent(s: string) {
    !IsBlank(s)
  }

  /** `s` with its leading strip characters removed. */
  function TrimStart(s: string): (r: string)
    ensures |r| <= |s| && r == s[|s| - |r|..]
    ensures r == [] || r[0] !in StripChars
    ensures forall i :: 0 <= i < |s| - |r| ==> s[i] in StripChars
  {
    if s != [] && s[0] in StripChars then TrimStart(s[1..]) else s
  }

  /** `s` with its trailing strip characters removed. */
  function TrimEnd(s: string): (r: string)
    ensures |r| <= |s| && r == s[..|r|]
    ensures r == [] || r[|r| - 1] !in StripChars
    ensures forall i :: |r| <= i < |s| ==> s[i] in StripChars
  {
    if s != [] && s[|s| - 1] in StripChars then TrimEnd(s[..|s| - 1]) else s
  }

  /**
   * `String#strip`: a slice of `s` with only strip characters cut off before and
   * after it; the result neither starts nor ends with a strip character, and it is
   * empty exactly when every character of `s` is one.
   */
  function Strip(s: string): (r: string)
    ensures exists i, j ::
      && 0 <= i <= j <= |s| && r == s[i..j]
      && (forall k :: 0 <= k < i ==> s[k] in StripChars)
      && (forall k :: j <= k < |s| ==> s[k] in StripChars)
    ensures r == [] || (r[0] !in StripChars && r[|r| - 1] !in StripChars)
    ensures r == [] <==> forall i :: 0 <= i < |s| ==> s[i] in StripChars
    ensures |r| <= |s|
  {
    var t := TrimStart(s);
    var r := TrimEnd(t);
    StripSlice(s, t, r);
    r
  }

  /**
   * Cutting strip characters off the front of `s` and then off the back leaves a
   * slice of `s` that is empty exactly when `s` has only strip characters.
   */
  lemma StripSlice(s: string, t: string, r: string)
    requires |t| <= |s| && t == s[|s| - |t|..] && forall k :: 0 <= k < |s| - |t| ==> s[k] in StripChars
    requires t == [] || t[0] !in StripChars
    requires |r| <= |t| && r == t[..|r|] && forall k :: |r| <= k < |t| ==> t[k] in StripChars
    requires r == [] || r[|r| - 1] !in StripChars
    ensures exists i, j ::
      && 0 <= i <= j <= |s| && r == s[i..j]
      && (forall k :: 0 <= k < i ==> s[k] in StripChars)
      && (forall k :: j <= k < |s| ==> s[k] in StripChars)
    ensures r == [] || (r[0] !in StripChars && r[|r| - 1] !in StripChars)
    ensures r == [] <==> forall i :: 0 <= i < |s| ==> s[i] in StripChars
  {
    if r == [] {
      // every character of `t` is then a strip character, so `t` is empty too
      assert t == [];
    } else {
      assert r[0] == t[0] == s[|s| - |t|];
    }
    var i := |s| - |t|;
    var j := i + |r|;
    assert t == s[i..] && r == t[..|r|];
    assert s[i..][..|r|] == s[i..j];
    forall k | j <= k < |s|
      ensures s[k] in StripChars
    {
      assert s[k] == t[k - i];
    }
    assert 0 <= i <= j <= |s| && r == s[i..j];
  }

  /**
   * The converse: whatever is wrapped in strip characters and itself neither starts
   * nor ends with one comes back out of `Strip` unchanged.
   */
  lemma StripRemovesPadding(before: string, core: string, after: string)
    requires forall k :: 0 <= k < |before| ==> before[k] in StripChars
    requires forall k :: 0 <= k < |after| ==> after[k] in StripChars
    requires core == [] || (core[0] !in StripChars && core[|core| - 1] !in StripChars)
    requires core == [] ==> after == []
    ensures Strip(before + core + after) == core
  {
    var s := before + core + after;
    assert s == before + (core + after);
    TrimStartSkips(before, core + after);
    if core == [] {
      assert core + after == [];
      assert TrimStart(s) == [];
    } else {
      assert (core + after)[0] == core[0];
      assert TrimStart(s) == core + after;
      TrimEndSkips(core, after);
      assert TrimEnd(core) == core;
    }
    assert Strip(s) == TrimEnd(TrimStart(s));
  }

  /** A padded name and the bare name strip to the same string. */
  lemma StrippedAlike(before: string, name: string, after: string)
    requires forall k :: 0 <= k < |before| ==> before[k] in StripChars
    requires forall k :: 0 <= k < |after| ==> after[k] in StripChars
    requires name != [] && name[0] !in StripChars && name[|name| - 1] !in StripChars
    ensures Strip(before + name + after) == Strip(name)
  {
    StripRemovesPadding(before, name, after);
    assert TrimStart(name) == name;
    assert TrimEnd(name) == name;
  }

  lemma {:induction false} TrimStartSkips(before: string, rest: string)
    requires forall k :: 0 <= k < |before| ==> before[k] in StripChars
    ensures TrimStart(before + rest) == TrimStart(rest)
    decreases |before|
  {
    if before != [] {
      assert (before + rest)[0] == before[0];
      assert (before + rest)[1..] == before[1..] + rest;
      TrimStartSkips(before[1..], rest);
    } else {
      assert before + rest == rest;
    }
  }

  lemma {:induction false} TrimEndSkips(rest: string, after: string)
    requires forall k :: 0 <= k < |after| ==> after[k] in StripChars
    ensures TrimEnd(rest + after) == TrimEnd(rest)
    decreases |after|
  {
    if after != [] {
      var n := |rest + after|;
      assert (rest + after)[n - 1] == after[|after| - 1];
      assert (rest + after)[..n - 1] == rest + after[..|after| - 1];
      TrimEndSkips(rest, after[..|after| - 1]);
    } else {
      assert rest + after == rest;
    }
  }

  /** Stripping a stripped string changes nothing. */
  lemma {:induction false} StripIdempotent(s: string)
    ensures Strip(Strip(s)) == Strip(s)
  {
    var r := Strip(s);
    if r != [] {
      assert TrimStart(r) == r;
      assert TrimEnd(r) == r;
    } else {
      assert TrimStart(r) == [];
    }
  }

  /** ASCII down-casing, the folding HTTP header names get. */
  function LowerChar(c: char): char {
    if 'A' <= c <= 'Z' then ((c as int) + 32) as char else c
  }

  /** `s` with every ASCII capital replaced by its small letter. */
  function Lower(s: string): (r: string)
    ensures |r| == |s|
    ensures forall i :: 0 <= i < |s| ==> r[i] == LowerChar(s[i])
  {
    seq(|s|, i requires 0 <= i < |s| => LowerChar(s[i]))
  }

  /** Folding a folded string changes nothing. */
  lemma LowerIdempotent(s: string)
    ensures Lower(Lower(s)) == Lower(s)
  {
    var r := Lower(s);
    assert forall i :: 0 <= i < |r| ==> Lower(r)[i] == r[i];
  }

  /** `Array#join`: the parts in order, `sep` between neighbours, "" for no parts. */
  function Join(parts: seq<string>, sep: string): (r: string)
    ensures parts == [] ==> r == []
    ensures |parts| == 1 ==> r == parts[0]
    ensures |parts| == 2 ==> r == parts[0] + sep + parts[1]
  {
    if parts == [] then []
    else if |parts| == 1 then parts[0]
    else parts[0] + sep + Join(parts[1..], sep)
  }

  predicate IsDigit(c: char) {
    '0' <= c <= '9'
  }

  predicate AllDigits(s: string) {
    forall i :: 0 <= i < |s| ==> IsDigit(s[i])
  }

  function DigitValue(c: char): nat
    requires IsDigit(c)
  {
    (c as int) - ('0' as int)
  }

  function Digit(d: nat): (c: char)
    requires d < 10
    ensures IsDigit(c) && DigitValue(c) == d
  {
    (('0' as int) + d) as char
  }

  /** The decimal numeral Ruby interpolates for a non-negative integer. */
  function NatToString(n: nat): (s: string)
    ensures s != [] && AllDigits(s)
    ensures |s| > 1 ==> s[0] != '0'
  {
    if n < 10 then [Digit(n)] else NatToString(n / 10) + [Digit(n % 10)]
  }

  /** The number a string of digits denotes. */
  function DigitsValue(s: string): nat
    requires AllDigits(s)
  {
    if s == [] then 0 else 10 * DigitsValue(s[..|s| - 1]) + DigitValue(s[|s| - 1])
  }

  /** Reading back a numeral gives the number it was written from. */
  lemma {:induction false} NatToStringValue(n: nat)
    ensures DigitsValue(NatToString(n)) == n
  {
    if n >= 10 {
      var s := NatToString(n);
      assert s[..|s| - 1] == NatToString(n / 10);
      NatToStringValue(n / 10);
    }
  }

  /** The longest prefix of `s` made of digits. */
  function LeadingDigits(s: string): (d: string)
    ensures |d| <= |s| && d == s[..|d|] && AllDigits(d)
    ensures |d| == |s| || !IsDigit(s[|d|])
  {
    if s != [] && IsDigit(s[0]) then [s[0]] + LeadingDigits(s[1..]) else []
  }

  /** `s` without the whitespace `String#to_i` skips. */
  function SkipLeadingSpace(s: string): (r: string)
    ensures |r| <= |s| && r == s[|s| - |r|..]
    ensures r == [] || r[0] !in LeadingSpace
  {
    if s != [] && s[0] in LeadingSpace then SkipLeadingSpace(s[1..]) else s
  }

  /**
   * `String#to_i`: optional leading whitespace, an optional sign, then the longest
   * run of digits; 0 when there are none.
   */
  function ToI(s: string): int
  {
    var t := SkipLeadingSpace(s);
    if t != [] && t[0] == '-' then -(DigitsValue(LeadingDigits(t[1..])) as int)
    else if t != [] && t[0] == '+' then DigitsValue(LeadingDigits(t[1..]))
    else DigitsValue(LeadingDigits(t))
  }

  /** `to_i` reads back every numeral `NatToString` writes. */
  lemma ToIOfNatToString(n: nat)
    ensures ToI(NatToString(n)) == n
  {
    var s := NatToString(n);
    ToIOfDigits(s);
    NatToStringValue(n);
  }

  /** `to_i` on a non-empty run of digits is the number they denote. */
  lemma ToIOfDigits(s: string)
    requires s != [] && AllDigits(s)
    ensures ToI(s) == DigitsValue(s)
  {
    assert IsDigit(s[0]);
    assert s[0] !in LeadingSpace;
    assert SkipLeadingSpace(s) == s;
    assert LeadingDigits(s) == s;
  }

  /** `s` without its trailing slashes. */
  function DropTrailingSlashes(s: string): (r: string)
    ensures |r| <= |s| && r == s[..|r|]
    ensures r == [] || r[|r| - 1] != '/'
    ensures forall i :: |r| <= i < |s| ==> s[i] == '/'
  {
    if s != [] && s[|s| - 1] == '/' then DropTrailingSlashes(s[..|s| - 1]) else s
  }

  /** The part of `s` after its last slash (all of `s` when it has none). */
  function AfterLastSlash(s: string): (r: string)
    ensures |r| <= |s| && r == s[|s| - |r|..]
    ensures '/' !in r
    ensures |r| == |s| || s[|s| - |r| - 1] == '/'
  {
    if s == [] || s[|s| - 1] == '/' then []
    else AfterLastSlash(s[..|s| - 1]) + [s[|s| - 1]]
  }

  /**
   * `File.basename` with `/` as separator: trailing slashes are ignored, the last
   * component is returned, a path of slashes only gives "/", the empty path gives "".
   */
  function Basename(path: string): (r: string)
    ensures r == [] <==> path == []
    ensures r == "/" || '/' !in r
  {
    var t := DropTrailingSlashes(path);
    if t == [] then (if path == [] then [] else "/") else AfterLastSlash(t)
  }

  /** The basename of `dir/name` (with or without a trailing slash) is `name`. */
  lemma BasenameOfJoin(dir: string, name: string)
    requires name != [] && '/' !in name
    ensures Basename(dir + "/" + name) == name
    ensures Basename(dir + "/" + name + "/") == name
  {
    var p := dir + "/" + name;
    assert DropTrailingSlashes(p + "/") == DropTrailingSlashes(p) by {
      assert (p + "/")[..|p|] == p;
    }
    assert name[|name| - 1] in name;
    assert DropTrailingSlashes(p) == p;
    AfterLastSlashOfJoin(dir, name);
  }

  lemma {:induction false} AfterLastSlashOfJoin(dir: string, name: string)
    requires '/' !in name
    ensures AfterLastSlash(dir + "/" + name) == name
    decreases |name|
  {
    var p := dir + "/" + name;
    if name == [] {
      assert p[|p| - 1] == '/';
    } else {
      var last := name[|name| - 1];
      assert last in name;
      assert p[..|p| - 1] == dir + "/" + name[..|name| - 1];
      assert forall c :: c in name[..|name| - 1] ==> c in name;
      AfterLastSlashOfJoin(dir, name[..|name| - 1]);
      assert name[..|name| - 1] + [last] == name;
    }
  }
}
