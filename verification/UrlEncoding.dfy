/**
  URL encoding of form data (web/src/htmx/form-data-utils.ts) with `encodeURIComponent` as section
  19.2.6.4 of ECMA-262 defines it, and a decoder for percent-encoding (section 2.1 of RFC 3986).
 */
module UrlEncoding {
  import opened Wrappers

  /** An entry of the form data: name and value. */
  type Entry = (string, string)

  // ---- encodeURIComponent ----

  predicate IsUnreserved(c: char) {
    'a' <= c <= 'z' || 'A' <= c <= 'Z' || '0' <= c <= '9'
    || c == '-' || c == '_' || c == '.' || c == '!' || c == '~' || c == '*' || c == '\'' || c == '(' || c == ')'
  }

  function HexDigit(d: nat): (c: char)
    requires d < 16
    ensures IsUnreserved(c)
  {
    if d < 10 then '0' + d as char else 'A' + (d - 10) as char
  }

  function Percent(b: nat): (s: string)
    requires b < 256
    ensures |s| == 3 && s[0] == '%'
  {
    ['%', HexDigit(b / 16), HexDigit(b % 16)]
  }

  /** A continuation byte of UTF-8 with its six bits. */
  function Continue(bits: nat): string
    requires bits < 64
  {
    Percent(0x80 + bits)
  }

  /** The percent-encoded UTF-8 bytes of a character. */
  function EncodeScalar(n: nat): string
    requires n < 0x11_0000
  {
    if n < 0x80 then Percent(n)
    else if n < 0x800 then Percent(0xC0 + n / 64) + Continue(n % 64)
    else if n < 0x1_0000 then Percent(0xE0 + n / 4096) + (Continue(n / 64 % 64) + Continue(n % 64))
    else Percent(0xF0 + n / 262144) + (Continue(n / 4096 % 64) + (Continue(n / 64 % 64) + Continue(n % 64)))
  }

  function EncodeChar(c: char): string {
    if IsUnreserved(c) then [c] else EncodeScalar(c as nat)
  }

  function EncodeComponent(s: string): string {
    if s == "" then "" else EncodeChar(s[0]) + EncodeComponent(s[1..])
  }

  // ---- A decoder ----

  function HexValue(c: char): Option<nat> {
    if '0' <= c <= '9' then Some((c - '0') as nat)
    else if 'A' <= c <= 'F' then Some((c - 'A') as nat + 10)
    else None
  }

  /** The byte written at the start of `s`. */
  function ByteAt(s: string): (b: Option<nat>)
    ensures b.Some? ==> |s| >= 3
  {
    if |s| < 3 || s[0] != '%' then None
    else
      match (HexValue(s[1]), HexValue(s[2]))
      case (Some(h), Some(l)) => Some(16 * h + l)
      case _ => None
  }

  /** The six bits of the continuation byte at the start of `s`. */
  function BitsAt(s: string): (b: Option<nat>)
    ensures b.Some? ==> |s| >= 3
  {
    match ByteAt(s)
    case None => None
    case Some(b) => if 0x80 <= b < 0xC0 then Some(b - 0x80) else None
  }

  /** The bits of `k` continuation bytes appended to `n`, and the text behind them. */
  function More(n: nat, s: string, k: nat): Option<(nat, string)>
    decreases k
  {
    if k == 0 then Some((n, s))
    else
      match BitsAt(s)
      case None => None
      case Some(b) => More(64 * n + b, s[3..], k - 1)
  }

  /** The character number at the start of a non-empty text, and the text behind it. */
  function CharAt(s: string): Option<(nat, string)>
    requires s != ""
  {
    if s[0] != '%' then Some((s[0] as nat, s[1..]))
    else
      match ByteAt(s)
      case None => None
      case Some(b) =>
        if b < 0x80 then Some((b, s[3..]))
        else if 0xC0 <= b < 0xE0 then More(b - 0xC0, s[3..], 1)
        else if 0xE0 <= b < 0xF0 then More(b - 0xE0, s[3..], 2)
        else if 0xF0 <= b then More(b - 0xF0, s[3..], 3)
        else None
  }

  predicate IsScalar(n: nat) {
    n < 0xD800 || 0xE000 <= n < 0x11_0000
  }

  function DecodeComponent(s: string): Option<string>
    decreases |s|
  {
    if s == "" then Some("")
    else
      match CharAt(s)
      case None => None
      case Some((n, rest)) =>
        if !IsScalar(n) || |rest| >= |s| then None
        else
          match DecodeComponent(rest)
          case None => None
          case Some(t) => Some([n as char] + t)
  }

  lemma HexValueOfDigit(d: nat)
    requires d < 16
    ensures HexValue(HexDigit(d)) == Some(d)
  {
  }

  lemma ByteOfPercent(b: nat, rest: string)
    requires b < 256
    ensures ByteAt(Percent(b) + rest) == Some(b) && (Percent(b) + rest)[3..] == rest
  {
    HexValueOfDigit(b / 16);
    HexValueOfDigit(b % 16);
  }

  lemma MoreOne(n: nat, b: nat, s: string, k: nat)
    requires b < 64
    ensures More(n, Continue(b) + s, k + 1) == More(64 * n + b, s, k)
  {
    ByteOfPercent(0x80 + b, s);
  }

  lemma LeadByte(b: nat, rest: string)
    requires b < 256
    ensures CharAt(Percent(b) + rest) ==
              if b < 0x80 then Some((b, rest))
              else if 0xC0 <= b < 0xE0 then More(b - 0xC0, rest, 1)
              else if 0xE0 <= b < 0xF0 then More(b - 0xE0, rest, 2)
              else if 0xF0 <= b then More(b - 0xF0, rest, 3)
              else None
  {
    ByteOfPercent(b, rest);
  }

  lemma TwoBytes(a: nat, b: nat, rest: string)
    requires a < 32 && b < 64
    ensures CharAt(Percent(0xC0 + a) + (Continue(b) + rest)) == Some((64 * a + b, rest))
  {
    LeadByte(0xC0 + a, Continue(b) + rest);
    MoreOne(a, b, rest, 0);
  }

  lemma ThreeBytes(a: nat, b: nat, d: nat, rest: string)
    requires a < 16 && b < 64 && d < 64
    ensures CharAt(Percent(0xE0 + a) + (Continue(b) + (Continue(d) + rest))) == Some((64 * (64 * a + b) + d, rest))
  {
    var tail1 := Continue(d) + rest;
    var tail2 := Continue(b) + tail1;
    assert CharAt(Percent(0xE0 + a) + tail2) == More(a, tail2, 2) by { LeadByte(0xE0 + a, tail2); }
    LastTwo(a, b, d, rest);
  }

  lemma LastTwo(n: nat, b: nat, d: nat, rest: string)
    requires b < 64 && d < 64
    ensures More(n, Continue(b) + (Continue(d) + rest), 2) == Some((64 * (64 * n + b) + d, rest))
  {
    var x, tail := 64 * n + b, Continue(d) + rest;
    assert More(n, Continue(b) + tail, 2) == More(x, tail, 1) by { MoreOne(n, b, tail, 1); }
    assert More(x, tail, 1) == More(64 * x + d, rest, 0) by { MoreOne(x, d, rest, 0); }
  }

  lemma LastThree(n: nat, b: nat, d: nat, e: nat, rest: string)
    requires b < 64 && d < 64 && e < 64
    ensures More(n, Continue(b) + (Continue(d) + (Continue(e) + rest)), 3)
         == Some((64 * (64 * (64 * n + b) + d) + e, rest))
  {
    var m, tail := 64 * n + b, Continue(d) + (Continue(e) + rest);
    assert More(n, Continue(b) + tail, 3) == More(m, tail, 2) by { MoreOne(n, b, tail, 2); }
    LastTwo(m, d, e, rest);
  }

  lemma FourBytes(a: nat, b: nat, d: nat, e: nat, rest: string)
    requires a < 16 && b < 64 && d < 64 && e < 64
    ensures CharAt(Percent(0xF0 + a) + (Continue(b) + (Continue(d) + (Continue(e) + rest))))
         == Some((64 * (64 * (64 * a + b) + d) + e, rest))
  {
    var tail := Continue(b) + (Continue(d) + (Continue(e) + rest));
    assert CharAt(Percent(0xF0 + a) + tail) == More(a, tail, 3) by { LeadByte(0xF0 + a, tail); }
    LastThree(a, b, d, e, rest);
  }

  /** A number is put together again from its groups of six bits. */
  lemma SixBits(n: nat)
    ensures 64 * (n / 64) + n % 64 == n
    ensures 64 * (n / 4096) + n / 64 % 64 == n / 64
    ensures 64 * (n / 262144) + n / 4096 % 64 == n / 4096
  {
  }

  lemma Assoc(a: string, b: string, c: string)
    ensures (a + b) + c == a + (b + c)
  {
  }

  lemma TwoByteScalar(n: nat, rest: string)
    requires 0x80 <= n < 0x800
    ensures CharAt(EncodeScalar(n) + rest) == Some((n, rest))
  {
    SixBits(n);
    Assoc(Percent(0xC0 + n / 64), Continue(n % 64), rest);
    TwoBytes(n / 64, n % 64, rest);
  }

  lemma ThreeGroups(a: nat, b: nat, d: nat, rest: string)
    requires a < 16 && b < 64 && d < 64
    ensures CharAt(Percent(0xE0 + a) + (Continue(b) + Continue(d)) + rest) == Some((64 * (64 * a + b) + d, rest))
  {
    Assoc(Percent(0xE0 + a), Continue(b) + Continue(d), rest);
    Assoc(Continue(b), Continue(d), rest);
    ThreeBytes(a, b, d, rest);
  }

  lemma ThreeByteScalar(n: nat, rest: string)
    requires 0x800 <= n < 0x1_0000
    ensures CharAt(EncodeScalar(n) + rest) == Some((n, rest))
  {
    var a, b, d := n / 4096, n / 64 % 64, n % 64;
    assert EncodeScalar(n) == Percent(0xE0 + a) + (Continue(b) + Continue(d));
    assert 64 * (64 * a + b) + d == n by { SixBits(n); }
    ThreeGroups(a, b, d, rest);
  }

  lemma FourGroups(a: nat, b: nat, d: nat, e: nat, rest: string)
    requires a < 16 && b < 64 && d < 64 && e < 64
    ensures CharAt(Percent(0xF0 + a) + (Continue(b) + (Continue(d) + Continue(e))) + rest)
         == Some((64 * (64 * (64 * a + b) + d) + e, rest))
  {
    Assoc(Percent(0xF0 + a), Continue(b) + (Continue(d) + Continue(e)), rest);
    Assoc(Continue(b), Continue(d) + Continue(e), rest);
    Assoc(Continue(d), Continue(e), rest);
    FourBytes(a, b, d, e, rest);
  }

  lemma FourByteScalar(n: nat, rest: string)
    requires 0x1_0000 <= n < 0x11_0000
    ensures CharAt(EncodeScalar(n) + rest) == Some((n, rest))
  {
    var a, b, d, e := n / 262144, n / 4096 % 64, n / 64 % 64, n % 64;
    assert EncodeScalar(n) == Percent(0xF0 + a) + (Continue(b) + (Continue(d) + Continue(e)));
    assert 64 * (64 * (64 * a + b) + d) + e == n by { SixBits(n); }
    FourGroups(a, b, d, e, rest);
  }

  lemma ScalarRead(n: nat, rest: string)
    requires n < 0x11_0000
    ensures CharAt(EncodeScalar(n) + rest) == Some((n, rest))
  {
    if n < 0x80 {
      LeadByte(n, rest);
    } else if n < 0x800 {
      TwoByteScalar(n, rest);
    } else if n < 0x1_0000 {
      ThreeByteScalar(n, rest);
    } else {
      FourByteScalar(n, rest);
    }
  }

  lemma CharOfEncoded(c: char, rest: string)
    ensures EncodeChar(c) != "" && CharAt(EncodeChar(c) + rest) == Some((c as nat, rest))
  {
    if IsUnreserved(c) {
      assert ([c] + rest)[1..] == rest;
    } else {
      ScalarRead(c as nat, rest);
    }
  }

  /** Every text is read back from its encoding. */
  lemma {:induction false} DecodeOfEncode(s: string)
    ensures DecodeComponent(EncodeComponent(s)) == Some(s)
  {
    if s != "" {
      CharOfEncoded(s[0], EncodeComponent(s[1..]));
      DecodeOfEncode(s[1..]);
      assert [s[0] as nat as char] + s[1..] == s;
    }
  }

  // ---- urlEncode ----

  const OBJECT := "[object Object]"

  /** A value is written as text; the text of a plain object is replaced by its JSON form, in quotes. */
  function ParamText(value: string): string {
    if value == OBJECT then "\"" + OBJECT + "\"" else value
  }

  function Param(e: Entry): string {
    EncodeComponent(e.0) + "=" + EncodeComponent(ParamText(e.1))
  }

  function UrlEncode(es: seq<Entry>): string {
    if es == [] then ""
    else if |es| == 1 then Param(es[0])
    else UrlEncode(es[..|es| - 1]) + "&" + Param(es[|es| - 1])
  }

  method AppendParam(returnStr: string, name: string, realValue: string) returns (r: string)
    ensures r == (if returnStr != "" then returnStr + "&" else "") + Param((name, realValue))
  {
    r := returnStr;
    if returnStr != "" {
      r := r + "&";
    }
    var value := realValue;
    if realValue == "[object Object]" {
      value := "\"" + realValue + "\"";
    }
    var s := EncodeComponent(value);
    assert r + (EncodeComponent(name) + "=" + s) == r + EncodeComponent(name) + "=" + s;
    r := r + EncodeComponent(name) + "=" + s;
  }

  method UrlEncodeAll(values: seq<Entry>) returns (returnStr: string)
    ensures returnStr == UrlEncode(values)
  {
    returnStr := "";
    for i := 0 to |values|
      invariant returnStr == UrlEncode(values[..i])
      invariant i > 0 ==> returnStr != ""
    {
      assert values[..i + 1][..i] == values[..i];
      returnStr := AppendParam(returnStr, values[i].0, values[i].1);
    }
    assert values[..|values|] == values;
  }

  /** The characters that `encodeURIComponent` leaves as they are: these and no others. */
  lemma CopiedExactly(c: char)
    ensures EncodeComponent([c]) == [c] <==>
              || 'A' <= c <= 'Z' || 'a' <= c <= 'z' || '0' <= c <= '9'
              || c in {'-', '_', '.', '!', '~', '*', '\'', '(', ')'}
  {
    assert [c][1..] == "";
    assert EncodeComponent([c]) == EncodeChar(c);
    if !IsUnreserved(c) {
      assert |EncodeChar(c)| >= 3 by { ScalarLength(c as nat); }
    }
  }

  lemma ScalarLength(n: nat)
    requires n < 0x11_0000
    ensures |EncodeScalar(n)| >= 3
  {
  }

  predicate IsComponentChar(c: char) {
    IsUnreserved(c) || c == '%'
  }

  predicate AllComponent(s: string) {
    forall i :: 0 <= i < |s| ==> IsComponentChar(s[i])
  }

  lemma {:induction false} EncodedChars(s: string)
    ensures AllComponent(EncodeComponent(s))
  {
    if s != "" {
      EncodedChars(s[1..]);
      CharChars(s[0]);
    }
  }

  lemma PercentChars(b: nat)
    requires b < 256
    ensures AllComponent(Percent(b))
  {
  }

  lemma TwoChars(x: nat, y: nat)
    requires x < 256 && y < 64
    ensures AllComponent(Percent(x) + Continue(y))
  {
    PercentChars(x);
    PercentChars(0x80 + y);
  }

  lemma ThreeChars(x: nat, y: nat, z: nat)
    requires x < 256 && y < 64 && z < 64
    ensures AllComponent(Percent(x) + (Continue(y) + Continue(z)))
  {
    PercentChars(x);
    TwoChars(0x80 + y, z);
  }

  lemma FourChars(x: nat, y: nat, z: nat, w: nat)
    requires x < 256 && y < 64 && z < 64 && w < 64
    ensures AllComponent(Percent(x) + (Continue(y) + (Continue(z) + Continue(w))))
  {
    PercentChars(x);
    ThreeChars(0x80 + y, z, w);
  }

  lemma CharChars(c: char)
    ensures AllComponent(EncodeChar(c))
  {
    var n := c as nat;
    if IsUnreserved(c) {
    } else if n < 0x80 {
      PercentChars(n);
    } else if n < 0x800 {
      TwoChars(0xC0 + n / 64, n % 64);
    } else if n < 0x1_0000 {
      ThreeChars(0xE0 + n / 4096, n / 64 % 64, n % 64);
    } else {
      FourChars(0xF0 + n / 262144, n / 4096 % 64, n / 64 % 64, n % 64);
    }
  }

  /** The part of `s` before the last `c`, if there is one, and the part behind it. */
  function SplitLast(s: string, c: char): (r: Option<(string, string)>)
    ensures r.Some? ==> |r.value.0| < |s|
  {
    if s == "" then None
    else if s[|s| - 1] == c then Some((s[..|s| - 1], ""))
    else
      match SplitLast(s[..|s| - 1], c)
      case None => None
      case Some((a, b)) => Some((a, b + [s[|s| - 1]]))
  }

  function DecodeParam(s: string): Option<Entry> {
    match SplitLast(s, '=')
    case None => None
    case Some((n, v)) =>
      match (DecodeComponent(n), DecodeComponent(v))
      case (Some(name), Some(value)) => Some((name, value))
      case _ => None
  }

  function DecodeQuery(s: string): Option<seq<Entry>>
    decreases |s|
  {
    if s == "" then Some([])
    else
      match SplitLast(s, '&')
      case None => (match DecodeParam(s) case None => None case Some(e) => Some([e]))
      case Some((front, last)) =>
        match (DecodeQuery(front), DecodeParam(last))
        case (Some(es), Some(e)) => Some(es + [e])
        case _ => None
  }

  lemma {:induction false} SplitAt(a: string, c: char, b: string)
    requires c !in b
    ensures SplitLast(a + [c] + b, c) == Some((a, b))
  {
    var s := a + [c] + b;
    if b == "" {
      assert s == a + [c] && s[..|s| - 1] == a;
    } else {
      var b' := b[..|b| - 1];
      assert s[|s| - 1] == b[|b| - 1];
      assert s[..|s| - 1] == a + [c] + b';
      SplitAt(a, c, b');
      assert b' + [b[|b| - 1]] == b;
    }
  }

  lemma {:induction false} SplitNowhere(s: string, c: char)
    requires c !in s
    ensures SplitLast(s, c).None?
  {
    if s != "" {
      SplitNowhere(s[..|s| - 1], c);
    }
  }

  function Written(e: Entry): Entry {
    (e.0, ParamText(e.1))
  }

  function WrittenAll(es: seq<Entry>): (r: seq<Entry>)
    ensures |r| == |es| && forall i :: 0 <= i < |r| ==> r[i] == Written(es[i])
  {
    seq(|es|, i requires 0 <= i < |es| => Written(es[i]))
  }

  lemma NotInEncoded(s: string, c: char)
    requires !IsComponentChar(c)
    ensures c !in EncodeComponent(s)
  {
    EncodedChars(s);
  }

  lemma ParamDecodes(e: Entry)
    ensures DecodeParam(Param(e)) == Some(Written(e)) && '&' !in Param(e) && Param(e) != ""
  {
    var n, v := EncodeComponent(e.0), EncodeComponent(ParamText(e.1));
    NotInEncoded(e.0, '&');
    NotInEncoded(ParamText(e.1), '&');
    NotInEncoded(ParamText(e.1), '=');
    assert Param(e) == n + ['='] + v;
    SplitAt(n, '=', v);
    DecodeOfEncode(e.0);
    DecodeOfEncode(ParamText(e.1));
  }

  lemma DecodeOneMore(front: string, last: string, es: seq<Entry>, e: Entry)
    requires '&' !in last && DecodeQuery(front) == Some(es) && DecodeParam(last) == Some(e)
    ensures DecodeQuery(front + "&" + last) == Some(es + [e])
  {
    SplitAt(front, '&', last);
    assert front + ['&'] + last == front + "&" + last;
  }

  lemma OneDecodes(e: Entry)
    ensures DecodeQuery(UrlEncode([e])) == Some([Written(e)]) && UrlEncode([e]) != ""
  {
    ParamDecodes(e);
    SplitNowhere(Param(e), '&');
  }

  lemma WrittenMore(es: seq<Entry>)
    requires es != []
    ensures WrittenAll(es) == WrittenAll(es[..|es| - 1]) + [Written(es[|es| - 1])]
  {
  }

  /** The encoding of a list of entries is read back as the entries it has written. */
  lemma {:induction false} DecodeOfUrlEncode(es: seq<Entry>)
    ensures DecodeQuery(UrlEncode(es)) == Some(WrittenAll(es)) && (es != [] ==> UrlEncode(es) != "")
  {
    if es != [] {
      var front, last := es[..|es| - 1], es[|es| - 1];
      WrittenMore(es);
      if front == [] {
        assert es == [last] && WrittenAll(es) == [Written(last)];
        OneDecodes(last);
      } else {
        DecodeOfUrlEncode(front);
        ParamDecodes(last);
        DecodeOneMore(UrlEncode(front), Param(last), WrittenAll(front), Written(last));
      }
    }
  }

  /** Two lists are encoded alike exactly when they write the same entries. */
  lemma {:induction false} UrlEncodeInjective(a: seq<Entry>, b: seq<Entry>)
    ensures UrlEncode(a) == UrlEncode(b) <==> WrittenAll(a) == WrittenAll(b)
  {
    DecodeOfUrlEncode(a);
    DecodeOfUrlEncode(b);
    if WrittenAll(a) == WrittenAll(b) {
      SameWritten(a, b);
    }
  }

  lemma SamePush(s: seq<Entry>, x: Entry, t: seq<Entry>, y: Entry)
    requires s + [x] == t + [y]
    ensures s == t && x == y
  {
    assert |s + [x]| == |t + [y]|;
    assert s == (s + [x])[..|s|] && t == (t + [y])[..|t|];
    assert (s + [x])[|s|] == x && (t + [y])[|t|] == y;
  }

  lemma {:induction false} SameWritten(a: seq<Entry>, b: seq<Entry>)
    requires WrittenAll(a) == WrittenAll(b)
    ensures UrlEncode(a) == UrlEncode(b)
  {
    assert |a| == |WrittenAll(a)| == |WrittenAll(b)| == |b|;
    if a != [] {
      var m := |a| - 1;
      WrittenMore(a);
      WrittenMore(b);
      SamePush(WrittenAll(a[..m]), Written(a[m]), WrittenAll(b[..m]), Written(b[m]));
      SameWritten(a[..m], b[..m]);
    }
  }

  /** A list of entries is read back unchanged exactly when no value is the text `[object Object]`. */
  lemma {:induction false} RoundTripExactly(es: seq<Entry>)
    ensures DecodeQuery(UrlEncode(es)) == Some(es) <==> forall i :: 0 <= i < |es| ==> es[i].1 != OBJECT
  {
    DecodeOfUrlEncode(es);
    if i :| 0 <= i < |es| && es[i].1 == OBJECT {
      assert WrittenAll(es)[i].1 != es[i].1;
    } else {
      assert WrittenAll(es) == es;
    }
  }

  /** Two different lists with one encoding: that text, and that text in quotes. */
  lemma ObjectTextCollides(name: string)
    ensures UrlEncode([(name, OBJECT)]) == UrlEncode([(name, "\"" + OBJECT + "\"")])
    ensures (name, OBJECT) != (name, "\"" + OBJECT + "\"")
  {
    assert |OBJECT| < |"\"" + OBJECT + "\""|;
  }
}
