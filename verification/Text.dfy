/**
  String helpers of `include/Utils.hpp`: `split`, the two `join` functions, and the decimal
  conversions `std::to_string` and `std::stoull` that the SDP code sends SSRCs and mids through.
 */
module Text {

  datatype Option<+T> = None | Some(value: T)

  datatype Result<+T> = Ok(value: T) | Err(error: string)

  const UINT32: nat := 0x1_0000_0000
  const UINT64: nat := 0x1_0000_0000_0000_0000

  type uint32 = n: nat | n < UINT32

  // ----- selecting from a list ------------------------------------------------------------------

  /** The elements with the property, in order. */
  function Select<T>(s: seq<T>, p: T -> bool): seq<T>
  {
    if s == [] then [] else (if p(s[0]) then [s[0]] else []) + Select(s[1..], p)
  }

  lemma {:induction false} SelectConcat<T>(a: seq<T>, b: seq<T>, p: T -> bool)
    ensures Select(a + b, p) == Select(a, p) + Select(b, p)
  {
    if a == [] {
      assert a + b == b;
    } else {
      var head := if p(a[0]) then [a[0]] else [];
      calc {
        Select(a + b, p);
        { assert (a + b)[1..] == a[1..] + b; }
        head + Select(a[1..] + b, p);
        { SelectConcat(a[1..], b, p); }
        head + (Select(a[1..], p) + Select(b, p));
        Select(a, p) + Select(b, p);
      }
    }
  }

  /** Selecting keeps an element as often as it occurs, or drops it altogether. */
  lemma {:induction false} SelectCounts<T>(s: seq<T>, p: T -> bool, x: T)
    ensures multiset(Select(s, p))[x] == if p(x) then multiset(s)[x] else 0
  {
    if s == [] {
    } else {
      assert s == [s[0]] + s[1..];
      SelectCounts(s[1..], p, x);
    }
  }

  // ----- split and join ---------------------------------------------------------------------

  /** Position of the first `d` in `s`, or `|s|` when there is none. */
  function FirstIndex(s: string, d: char): (k: nat)
    ensures k <= |s|
    ensures forall i :: 0 <= i < k ==> s[i] != d
    ensures k < |s| ==> s[k] == d
  {
    if s == "" || s[0] == d then 0 else 1 + FirstIndex(s[1..], d)
  }

  /** The tokens `split` yields: a delimiter at the very end does not open a last empty token. */
  function Tokens(s: string, d: char): seq<string>
  {
    if s == "" then []
    else
      var k := FirstIndex(s, d);
      if k == |s| then [s] else [s[..k]] + Tokens(s[k + 1..], d)
  }

  /** The string `join` builds. */
  function Joined(v: seq<string>, d: char): string
  {
    if v == [] then "" else if |v| == 1 then v[0] else v[0] + [d] + Joined(v[1..], d)
  }

  /** One `std::getline`: the token up to the delimiter, and what the stream holds after it. */
  method GetLine(stream: string, d: char) returns (token: string, rest: string)
    requires stream != ""
    ensures var k := FirstIndex(stream, d);
            token == stream[..k] && rest == if k < |stream| then stream[k + 1..] else ""
  {
    var i := 0;
    while i < |stream| && stream[i] != d
      invariant i <= |stream|
      invariant d !in stream[..i]
    {
      i := i + 1;
    }
    FirstIndexUnique(stream, d, i);
    token := stream[..i];
    rest := if i < |stream| then stream[i + 1..] else "";
  }

  lemma FirstIndexUnique(s: string, d: char, k: nat)
    requires k <= |s| && d !in s[..k] && (k < |s| ==> s[k] == d)
    ensures FirstIndex(s, d) == k
  {
  }

  method Split(s: string, d: char) returns (tokens: seq<string>)
    ensures tokens == Tokens(s, d)
  {
    tokens := [];
    var stream := s;
    while stream != ""
      invariant tokens + Tokens(stream, d) == Tokens(s, d)
      decreases |stream|
    {
      var token, rest := GetLine(stream, d);
      assert stream[..|stream|] == stream;
      assert Tokens(stream, d) == [token] + Tokens(rest, d);
      tokens := tokens + [token];
      stream := rest;
    }
  }

  method Join(v: seq<string>, d: char) returns (s: string)
    ensures s == Joined(v, d)
  {
    s := "";
    for i := 0 to |v|
      invariant s + Joined(v[i..], d) == Joined(v, d)
    {
      assert v[i..][1..] == v[i + 1..];
      s := s + v[i];
      if i != |v| - 1 {
        s := s + [d];
      }
    }
  }

  /** The `uint32_t` overload of `join`. */
  method JoinNumbers(v: seq<nat>, d: char) returns (s: string)
    ensures s == Joined(Decimals(v), d)
  {
    s := "";
    var t := Decimals(v);
    for i := 0 to |v|
      invariant s + Joined(t[i..], d) == Joined(t, d)
    {
      assert t[i..][1..] == t[i + 1..];
      s := s + Decimal(v[i]);
      if i != |v| - 1 {
        s := s + [d];
      }
    }
  }

  /** What a list must look like for `split` to recover it from the joined string. */
  ghost predicate Splittable(v: seq<string>, d: char) {
    (forall i :: 0 <= i < |v| ==> d !in v[i]) && (v != [] ==> v[|v| - 1] != "")
  }

  lemma {:induction false} TokensHoldNoDelimiter(s: string, d: char, i: nat)
    requires i < |Tokens(s, d)|
    ensures d !in Tokens(s, d)[i]
    decreases |s|
  {
    var k := FirstIndex(s, d);
    assert s[..k] == s || k < |s|;
    if i == 0 {
    } else {
      TokensHoldNoDelimiter(s[k + 1..], d, i - 1);
    }
  }

  /** Joining delimiter-free tokens and splitting again loses exactly an empty last token. */
  lemma {:induction false} TokensOfJoined(v: seq<string>, d: char)
    requires forall i :: 0 <= i < |v| ==> d !in v[i]
    ensures Tokens(Joined(v, d), d) == if v != [] && v[|v| - 1] == "" then v[..|v| - 1] else v
  {
    if |v| == 1 {
      if v[0] != "" { FirstIndexUnique(v[0], d, |v[0]|); }
    } else if |v| > 1 {
      var s := Joined(v, d);
      var k := |v[0]|;
      assert s[..k] == v[0] && s[k] == d && s[k + 1..] == Joined(v[1..], d);
      FirstIndexUnique(s, d, k);
      TokensOfJoined(v[1..], d);
    }
  }

  /** `split` undoes `join` on exactly the splittable lists. */
  lemma SplitUndoesJoin(v: seq<string>, d: char)
    ensures Tokens(Joined(v, d), d) == v <==> Splittable(v, d)
  {
    if forall i :: 0 <= i < |v| ==> d !in v[i] {
      TokensOfJoined(v, d);
    } else {
      var i :| 0 <= i < |v| && d in v[i];
      if Tokens(Joined(v, d), d) == v {
        TokensHoldNoDelimiter(Joined(v, d), d, i);
      }
    }
  }

  lemma TwoTokens(a: string, b: string, d: char)
    requires d !in a && d !in b && b != ""
    ensures Tokens(a + [d] + b, d) == [a, b]
  {
    var v := [a, b];
    assert Joined(v[1..], d) == b;
    TokensOfJoined(v, d);
  }

  /** The string without a delimiter at its very end. */
  function Unended(s: string, d: char): string { if s != "" && s[|s| - 1] == d then s[..|s| - 1] else s }

  lemma UnendedConcat(a: string, rest: string, d: char)
    ensures Unended(a + [d] + rest, d) == if rest == "" then a else a + [d] + Unended(rest, d)
  {
    var s := a + [d] + rest;
    if rest == "" {
      assert s[..|s| - 1] == a;
    } else if rest[|rest| - 1] == d {
      assert s[..|s| - 1] == a + [d] + rest[..|rest| - 1];
    }
  }

  lemma JoinedFirst(a: string, v: seq<string>, d: char)
    ensures Joined([a] + v, d) == if v == [] then a else a + [d] + Joined(v, d)
  {
    assert ([a] + v)[1..] == v;
  }

  /** `join` undoes `split` up to one delimiter at the very end of the string. */
  lemma {:induction false} JoinAfterSplit(s: string, d: char)
    ensures Joined(Tokens(s, d), d) == Unended(s, d)
    decreases |s|
  {
    var k := FirstIndex(s, d);
    if k == |s| {
    } else {
      var a, rest := s[..k], s[k + 1..];
      calc {
        Joined(Tokens(s, d), d);
        { assert Tokens(s, d) == [a] + Tokens(rest, d); }
        Joined([a] + Tokens(rest, d), d);
        { JoinedFirst(a, Tokens(rest, d), d); }
        if rest == "" then a else a + [d] + Joined(Tokens(rest, d), d);
        { JoinAfterSplit(rest, d); }
        if rest == "" then a else a + [d] + Unended(rest, d);
        { UnendedConcat(a, rest, d); }
        Unended(a + [d] + rest, d);
        { assert s == a + [d] + rest; }
        Unended(s, d);
      }
    }
  }

  // ----- decimal numerals -------------------------------------------------------------------

  predicate IsDigit(c: char) { '0' <= c <= '9' }

  /** `std::to_string` of an unsigned value. */
  function Decimal(n: nat): (s: string)
    ensures s != "" && forall i :: 0 <= i < |s| ==> IsDigit(s[i])
  {
    var last := ['0' + (n % 10) as char];
    if n < 10 then last else Decimal(n / 10) + last
  }

  function Decimals(v: seq<nat>): (t: seq<string>)
    ensures |t| == |v| && forall i :: 0 <= i < |v| ==> t[i] == Decimal(v[i])
  {
    seq(|v|, i requires 0 <= i < |v| => Decimal(v[i]))
  }

  /** Value of the digits at the front of `s`, continuing from `acc`. */
  function DigitsValue(s: string, acc: nat): nat
  {
    if s == "" || !IsDigit(s[0]) then acc
    else DigitsValue(s[1..], 10 * acc + (s[0] as int - '0' as int))
  }

  predicate IsSpace(c: char) { c == ' ' || '\t' <= c <= '\r' }

  function SkipSpaces(s: string): string
  {
    if s != "" && IsSpace(s[0]) then SkipSpaces(s[1..]) else s
  }

  /** `std::stoull` in base 10; `None` stands for the exceptions it throws. A minus sign negates
      the value modulo 2^64, as `strtoull` does. */
  function Stoull(s: string): Option<nat>
  {
    var t := SkipSpaces(s);
    var negative := t != "" && t[0] == '-';
    var digits := if t != "" && (t[0] == '-' || t[0] == '+') then t[1..] else t;
    if digits == "" || !IsDigit(digits[0]) then None
    else
      var n := DigitsValue(digits, 0);
      if n >= UINT64 then None
      else Some(if negative then (UINT64 - n) % UINT64 else n)
  }

  /** Reading the numeral of `n` from an empty accumulator leaves `n` in it. */
  lemma {:induction false} DigitsThen(n: nat, rest: string)
    ensures DigitsValue(Decimal(n) + rest, 0) == DigitsValue(rest, n)
  {
    var last := ['0' + (n % 10) as char];
    assert (last + rest)[1..] == rest;
    if n >= 10 {
      var front := Decimal(n / 10);
      assert front + last + rest == front + (last + rest);
      DigitsThen(n / 10, last + rest);
    }
  }

  /** `stoull` undoes `to_string` on every 64-bit value. */
  lemma StoullOfDecimal(n: nat)
    requires n < UINT64
    ensures Stoull(Decimal(n)) == Some(n)
  {
    var s := Decimal(n);
    assert IsDigit(s[0]);
    DigitsThen(n, "");
    assert s + "" == s;
  }

  /** Different numbers have different numerals. */
  lemma DecimalInjective(m: nat, n: nat)
    requires Decimal(m) == Decimal(n)
    ensures m == n
  {
    DigitsThen(m, "");
    DigitsThen(n, "");
  }

  lemma DecimalPair(m: nat, n: nat)
    ensures Tokens(Decimal(m) + " " + Decimal(n), ' ') == [Decimal(m), Decimal(n)]
  {
    var a, b := Decimal(m), Decimal(n);
    assert ' ' !in a && ' ' !in b;
    TwoTokens(a, b, ' ');
  }
}
