/**
 * String helpers that stand for Python built-ins used by the client:
 * `"{}".format(n)` for integers, `str.strip()`, and the reading of a
 * `key=value&key=value` form body (the partner of the payload builders).
 */
module Text {

  /** The text of one decimal digit. */
  function DigitChar(d: nat): (c: char)
    requires d < 10
    ensures '0' <= c <= '9'
  {
    ('0' as int + d) as char
  }

  predicate IsDigit(c: char) { '0' <= c <= '9' }

  /** The decimal rendering of a natural number, as `str(n)` gives it. */
  function NatToString(n: nat): (s: string)
    ensures |s| > 0
    ensures forall i :: 0 <= i < |s| ==> IsDigit(s[i])
    // no padding: only zero itself starts with `0`
    ensures s[0] == '0' ==> n == 0
    decreases n
  {
    if n < 10 then [DigitChar(n)] else NatToString(n / 10) + [DigitChar(n % 10)]
  }

  /** The decimal rendering of an integer, as `"{}".format(n)` gives it. */
  function IntToString(n: int): (s: string)
    ensures |s| > 0
    ensures n < 0 <==> s[0] == '-'
    ensures forall i :: 0 < i < |s| ==> IsDigit(s[i])
    // the digits after the sign are not padded: only zero starts with `0`
    ensures var digits := if n < 0 then s[1..] else s;
            digits != [] && (digits[0] == '0' ==> n == 0)
  {
    if n < 0 then "-" + NatToString(-n) else NatToString(n)
  }

  /** Reads back a string of decimal digits (a character that is not a digit reads as 0). */
  function ParseNat(s: string): nat
  {
    if s == [] then 0 else ParseNat(s[..|s| - 1]) * 10 + DigitValue(s[|s| - 1])
  }

  function DigitValue(c: char): (d: nat)
    ensures d < 10
  {
    if IsDigit(c) then (c as int) - ('0' as int) else 0
  }

  /** Reads back the rendering of an integer. */
  function ParseInt(s: string): int
  {
    if s != [] && s[0] == '-' then -(ParseNat(s[1..]) as int) else ParseNat(s)
  }

  lemma {:induction false} NatRoundTrip(n: nat)
    ensures ParseNat(NatToString(n)) == n
    decreases n
  {
    if n >= 10 {
      var s := NatToString(n);
      assert s[..|s| - 1] == NatToString(n / 10);
      NatRoundTrip(n / 10);
    }
  }

  /** Rendering an integer loses nothing: the decimal text reads back as the same number. */
  lemma IntRoundTrip(n: int)
    ensures ParseInt(IntToString(n)) == n
  {
    if n < 0 {
      NegativeRoundTrip(n);
    } else {
      NatRoundTrip(n);
    }
  }

  lemma NegativeRoundTrip(n: int)
    requires n < 0
    ensures ParseInt(IntToString(n)) == n
  {
    NatRoundTrip(-n);
    ParseNegative(NatToString(-n));
    NegativeText(n);
  }

  lemma NegativeText(n: int)
    requires n < 0
    ensures IntToString(n) == "-" + NatToString(-n)
  {
  }

  /** A minus sign in front negates what the digits read as. */
  lemma ParseNegative(t: string)
    ensures ParseInt("-" + t) == -(ParseNat(t) as int)
  {
    assert ("-" + t)[1..] == t;
  }

  /** Two integers render to the same text only if they are equal. */
  lemma IntToStringInjective(m: int, n: int)
    requires IntToString(m) == IntToString(n)
    ensures m == n
  {
    IntRoundTrip(m);
    IntRoundTrip(n);
  }

  // ---------------------------------------------------------------------
  // str.strip()

  /** The characters for which Python's `str.isspace()` holds; `str.strip()` removes them. */
  predicate IsSpace(c: char)
  {
    var n := c as int;
    (0x09 <= n <= 0x0D) || (0x1C <= n <= 0x20) || n == 0x85 || n == 0xA0 || n == 0x1680
    || (0x2000 <= n <= 0x200A) || n == 0x2028 || n == 0x2029 || n == 0x202F || n == 0x205F
    || n == 0x3000
  }

  predicate AllSpace(s: string) { forall i :: 0 <= i < |s| ==> IsSpace(s[i]) }

  /** `s` with its leading whitespace removed. */
  function StripLeft(s: string): (r: string)
    ensures |r| <= |s| && r == s[|s| - |r|..]
    ensures AllSpace(s[..|s| - |r|])
    ensures r == [] || !IsSpace(r[0])
  {
    if s != [] && IsSpace(s[0]) then
      var r := StripLeft(s[1..]);
      LeftSpaceGrows(s, r);
      r
    else
      assert s[..0] == [];
      s
  }

  /** A whitespace character in front of a whitespace-only prefix keeps it whitespace-only. */
  lemma LeftSpaceGrows(s: string, r: string)
    requires s != [] && IsSpace(s[0])
    requires |r| <= |s| - 1 && r == s[1..][|s| - 1 - |r|..] && AllSpace(s[1..][..|s| - 1 - |r|])
    ensures r == s[|s| - |r|..] && AllSpace(s[..|s| - |r|])
  {
    var k := |s| - |r|;
    forall i | 0 <= i < k
      ensures IsSpace(s[..k][i])
    {
      if i > 0 {
        assert s[..k][i] == s[1..][..k - 1][i - 1];
      }
    }
  }

  /** `s` with its trailing whitespace removed. */
  function StripRight(s: string): (r: string)
    ensures |r| <= |s| && r == s[..|r|]
    ensures AllSpace(s[|r|..])
    ensures r == [] || !IsSpace(r[|r| - 1])
  {
    if s != [] && IsSpace(s[|s| - 1]) then
      var r := StripRight(s[..|s| - 1]);
      RightSpaceGrows(s, r);
      r
    else
      assert s[|s|..] == [];
      s
  }

  /** A whitespace character after a whitespace-only suffix keeps it whitespace-only. */
  lemma RightSpaceGrows(s: string, r: string)
    requires s != [] && IsSpace(s[|s| - 1])
    requires |r| <= |s| - 1 && r == s[..|s| - 1][..|r|] && AllSpace(s[..|s| - 1][|r|..])
    ensures r == s[..|r|] && AllSpace(s[|r|..])
  {
    var k := |r|;
    forall i | 0 <= i < |s| - k
      ensures IsSpace(s[k..][i])
    {
      if i < |s| - 1 - k {
        assert s[k..][i] == s[..|s| - 1][k..][i];
      }
    }
  }

  /** Python's `s.strip()`: whitespace removed from both ends. */
  function Strip(s: string): (r: string)
    ensures r == [] || (!IsSpace(r[0]) && !IsSpace(r[|r| - 1]))
  {
    StripRight(StripLeft(s))
  }

  /** The stripped text is a middle slice of `s`, cut between whitespace-only ends. */
  lemma StripSlice(s: string)
    ensures exists i, j :: 0 <= i <= j <= |s| && Strip(s) == s[i..j] && AllSpace(s[..i]) && AllSpace(s[j..])
  {
    var l := StripLeft(s);
    var r := StripRight(l);
    var i := |s| - |l|;
    assert r == s[i..i + |r|];
    assert s[i + |r|..] == l[|r|..];
  }

  /** Stripping twice is the same as stripping once. */
  lemma StripIdempotent(s: string)
    ensures Strip(Strip(s)) == Strip(s)
  {
    var r := Strip(s);
    assert StripLeft(r) == r;
    assert StripRight(r) == r;
  }

  /** A text with no whitespace at either end is left as it is. */
  lemma StripKeepsTrimmed(s: string)
    requires s == [] || (!IsSpace(s[0]) && !IsSpace(s[|s| - 1]))
    ensures Strip(s) == s
  {
  }

  // ---------------------------------------------------------------------
  // Concatenation of the chunks an HTML parser hands over

  function Concat(chunks: seq<string>): (s: string)
    ensures chunks == [] ==> s == []
  {
    if chunks == [] then [] else Concat(chunks[..|chunks| - 1]) + chunks[|chunks| - 1]
  }

  lemma ConcatSingle(c: string)
    ensures Concat([c]) == c
  {
    assert [c][..0] == [];
  }

  // ---------------------------------------------------------------------
  // Reading a form body back

  /** How many times `c` occurs in `s`. */
  function Count(c: char, s: string): nat
  {
    if s == [] then 0 else (if s[0] == c then 1 else 0) + Count(c, s[1..])
  }

  /** `s` cut at every `sep`, as Python's `s.split(sep)`. */
  function Split(s: string, sep: char): (parts: seq<string>)
    ensures |parts| == Count(sep, s) + 1
  {
    if s == [] then [[]]
    else
      var tail := Split(s[1..], sep);
      if s[0] == sep then [[]] + tail else [[s[0]] + tail[0]] + tail[1..]
  }

  lemma {:induction false} SplitNoSep(s: string, sep: char)
    requires Count(sep, s) == 0
    ensures Split(s, sep) == [s]
    decreases |s|
  {
    if s != [] {
      SplitNoSep(s[1..], sep);
      assert [s[0]] + s[1..] == s;
    }
  }

  /** Cutting `a + [sep] + b` at `sep` gives the pieces of `a` followed by those of `b`. */
  lemma {:induction false} SplitJoin(a: string, sep: char, b: string)
    ensures Split(a + [sep] + b, sep) == Split(a, sep) + Split(b, sep)
    decreases |a|
  {
    var s := a + [sep] + b;
    if a == [] {
      assert s[1..] == b;
    } else {
      assert s[1..] == a[1..] + [sep] + b;
      SplitJoin(a[1..], sep, b);
    }
  }

  lemma {:induction false} CountAppend(c: char, a: string, b: string)
    ensures Count(c, a + b) == Count(c, a) + Count(c, b)
    decreases |a|
  {
    if a != [] {
      assert (a + b)[0] == a[0];
      assert (a + b)[1..] == a[1..] + b;
      CountAppend(c, a[1..], b);
    } else {
      assert a + b == b;
    }
  }

  /** The index of the first `c` in `s`, or `|s|` when there is none. */
  function IndexOf(s: string, c: char): (k: nat)
    ensures k <= |s|
    ensures forall i :: 0 <= i < k ==> s[i] != c
    ensures k < |s| ==> s[k] == c
  {
    if s == [] then 0 else if s[0] == c then 0 else 1 + IndexOf(s[1..], c)
  }

  /** One `key=value` field: the key ends at the first `=`. */
  function ParseField(f: string): (string, string)
  {
    var k := IndexOf(f, '=');
    if k < |f| then (f[..k], f[k + 1..]) else (f, "")
  }

  /** The fields of a form body, in order, with no percent-decoding. */
  function ParseForm(body: string): (fields: seq<(string, string)>)
    ensures |fields| == Count('&', body) + 1
  {
    var parts := Split(body, '&');
    seq(|parts|, i requires 0 <= i < |parts| => ParseField(parts[i]))
  }

  /** In `a + [c] + b` with no `c` in `a`, the first `c` is the one after `a`. */
  lemma IndexOfJoin(a: string, c: char, b: string)
    requires Count(c, a) == 0
    ensures IndexOf(a + [c] + b, c) == |a|
  {
    var f := a + [c] + b;
    var k := IndexOf(f, c);
    assert f[|a|] == c;
    if k < |a| {
      assert a[k] == f[k];
      CountPositive(c, a, k);
    }
  }

  lemma ParseFieldOf(key: string, value: string)
    requires Count('=', key) == 0
    ensures ParseField(key + "=" + value) == (key, value)
  {
    var f := key + "=" + value;
    assert f == key + ['='] + value;
    IndexOfJoin(key, '=', value);
    assert f[..|key|] == key;
    assert f[|key| + 1..] == value;
  }

  lemma {:induction false} CountPositive(c: char, s: string, k: nat)
    requires k < |s| && s[k] == c
    ensures Count(c, s) > 0
    decreases k
  {
    if k > 0 {
      CountPositive(c, s[1..], k - 1);
    }
  }

  lemma {:induction false} CountAbsent(c: char, s: string)
    requires forall i :: 0 <= i < |s| ==> s[i] != c
    ensures Count(c, s) == 0
    decreases |s|
  {
    if s != [] {
      CountAbsent(c, s[1..]);
    }
  }

  /** One field as it is written into a form body. */
  function FieldText(field: (string, string)): string
  {
    field.0 + "=" + field.1
  }

  /** The form body `k1=v1&k2=v2&...`, written with no percent-encoding. */
  function FormBody(fields: seq<(string, string)>): string
    requires |fields| > 0
  {
    if |fields| == 1 then FieldText(fields[0])
    else FieldText(fields[0]) + "&" + FormBody(fields[1..])
  }

  lemma FormBodyCons(fields: seq<(string, string)>)
    requires |fields| > 1
    ensures FormBody(fields) == FieldText(fields[0]) + "&" + FormBody(fields[1..])
  {
  }

  /** The `&` of a form body: one between each two fields, and those inside the values. */
  lemma CountFormBodyCons(fields: seq<(string, string)>)
    requires |fields| > 1 && Lacks(fields[0].0, '&')
    ensures Count('&', FormBody(fields)) == Count('&', fields[0].1) + 1 + Count('&', FormBody(fields[1..]))
  {
    var head := FieldText(fields[0]);
    CountAppend('&', head + "&", FormBody(fields[1..]));
    CountAppend('&', head, "&");
    CountField(fields[0]);
  }

  lemma CountField(field: (string, string))
    requires Lacks(field.0, '&')
    ensures Count('&', FieldText(field)) == Count('&', field.1)
  {
    CountAppend('&', field.0 + "=", field.1);
    assert Lacks(field.0 + "=", '&');
    CountAbsent('&', field.0 + "=");
  }

  lemma Assoc<T>(a: seq<T>, b: seq<T>, c: seq<T>)
    ensures a + (b + c) == a + b + c
  {
  }

  /** Re-brackets `a + (b + c + d + e)` to the left. */
  lemma Assoc5<T>(a: seq<T>, b: seq<T>, c: seq<T>, d: seq<T>, e: seq<T>)
    ensures a + (b + c + d + e) == a + b + c + d + e
  {
    Assoc(a, b + c + d, e);
    Assoc(a, b + c, d);
    Assoc(a, b, c);
  }

  lemma FormBody3(f: seq<(string, string)>)
    requires |f| == 3
    ensures FormBody(f) == FieldText(f[0]) + "&" + (FieldText(f[1]) + "&" + FieldText(f[2]))
  {
    FormBodyCons(f);
    FormBodyCons(f[1..]);
    assert f[1..][1..] == [f[2]];
  }

  lemma FormBody4(f: seq<(string, string)>)
    requires |f| == 4
    ensures FormBody(f) == FieldText(f[0]) + "&" + (FieldText(f[1]) + "&" + (FieldText(f[2]) + "&" + FieldText(f[3])))
  {
    FormBodyCons(f);
    FormBody3(f[1..]);
  }

  /** `s` does not hold `c`. */
  predicate Lacks(s: string, c: char)
  {
    forall i :: 0 <= i < |s| ==> s[i] != c
  }

  /** Neither the key nor the value of any field holds `&`, and no key holds `=`. */
  predicate Plain(fields: seq<(string, string)>)
  {
    forall i :: 0 <= i < |fields| ==>
      Lacks(fields[i].0, '&') && Lacks(fields[i].1, '&') && Lacks(fields[i].0, '=')
  }

  lemma FieldTextPlain(field: (string, string))
    requires Lacks(field.0, '&') && Lacks(field.1, '&')
    ensures Count('&', FieldText(field)) == 0
  {
    assert Lacks(FieldText(field), '&');
    CountAbsent('&', FieldText(field));
  }

  lemma {:induction false} SplitFormBody(fields: seq<(string, string)>)
    requires |fields| > 0 && Plain(fields)
    ensures Split(FormBody(fields), '&') == seq(|fields|, i requires 0 <= i < |fields| => FieldText(fields[i]))
    decreases |fields|
  {
    FieldTextPlain(fields[0]);
    SplitNoSep(FieldText(fields[0]), '&');
    if |fields| > 1 {
      SplitFormBody(fields[1..]);
      assert FormBody(fields) == FieldText(fields[0]) + ['&'] + FormBody(fields[1..]);
      SplitJoin(FieldText(fields[0]), '&', FormBody(fields[1..]));
    }
  }

  /** A body written from plain fields reads back as exactly those fields, in order. */
  lemma FormRoundTrip(fields: seq<(string, string)>)
    requires |fields| > 0 && Plain(fields)
    ensures ParseForm(FormBody(fields)) == fields
  {
    SplitFormBody(fields);
    forall i | 0 <= i < |fields|
      ensures ParseForm(FormBody(fields))[i] == fields[i]
    {
      CountAbsent('=', fields[i].0);
      ParseFieldOf(fields[i].0, fields[i].1);
    }
  }
}
