/** Every definition name has a reference that leads to it. */
module PointerNames {
  import opened Wrappers
  import opened Json
  import opened SchemaPointers

  /* ---- Percent codes of UTF-8 ---- */

  function Hex(d: nat): (c: char)
    requires d < 16
    ensures HexValue(c) == Some(d) && c != '%'
  {
    if d < 10 then '0' + d as char else 'A' + (d - 10) as char
  }

  function Code(octet: nat): (s: string)
    requires octet < 256
    ensures |s| == 3
  {
    ['%', Hex(octet / 16), Hex(octet % 16)]
  }

  lemma {:induction false} OctetReads(octet: nat, rest: string)
    requires octet < 256
    ensures Octet(Code(octet) + rest) == Some(octet) && (Code(octet) + rest)[3..] == rest
  {
    var s := Code(octet) + rest;
    assert s[0] == '%' && s[1] == Hex(octet / 16) && s[2] == Hex(octet % 16);
  }

  /** Any way to write octets down so that they can be read back. */
  type Coder = nat -> string

  ghost predicate Reads(code: Coder) {
    && (forall octet {:trigger code(octet)} | octet < 256 :: |code(octet)| == 3)
    && forall octet, rest {:trigger code(octet) + rest} | octet < 256 ::
         Octet(code(octet) + rest) == Some(octet) && (code(octet) + rest)[3..] == rest
  }

  const PERCENT: Coder := (octet: nat) => if octet < 256 then Code(octet) else ""

  lemma {:induction false} PercentReads()
    ensures Reads(PERCENT)
  {
    forall octet: nat, rest: string | octet < 256
      ensures |PERCENT(octet)| == 3 && Octet(PERCENT(octet) + rest) == Some(octet) && (PERCENT(octet) + rest)[3..] == rest
    {
      OctetReads(octet, rest);
    }
  }

  /** A lead octet and up to three continuations. */
  function TwoOctets(code: Coder, a: nat, b: nat): string {
    code(0xC0 + a) + code(0x80 + b)
  }

  function ThreeOctets(code: Coder, a: nat, b: nat, c: nat): string {
    code(0xE0 + a) + (code(0x80 + b) + code(0x80 + c))
  }

  function FourOctets(code: Coder, a: nat, b: nat, c: nat, d: nat): string {
    code(0xF0 + a) + (code(0x80 + b) + (code(0x80 + c) + code(0x80 + d)))
  }

  /** The octets of a character in UTF-8, written down by `code` (RFC 3629 section 3). */
  function CharCode(code: Coder, c: char): string {
    var n := c as int;
    if n < 0x80 then code(n)
    else if n < 0x800 then TwoOctets(code, n / 64, n % 64)
    else if n < 0x10000 then ThreeOctets(code, n / 4096, n / 64 % 64, n % 64)
    else FourOctets(code, n / 262144, n / 4096 % 64, n / 64 % 64, n % 64)
  }

  function Coded(code: Coder, s: string): string {
    if s == "" then "" else CharCode(code, s[0]) + Coded(code, s[1..])
  }

  lemma {:induction false} AddInAnyOrder(a: string, b: string, c: string)
    ensures (a + b) + c == a + (b + c)
  {
  }

  lemma {:induction false} ContinuationReads(code: Coder, bits: nat, rest: string)
    requires Reads(code)
    requires bits < 64
    ensures Continuation(code(0x80 + bits) + rest) == Some(bits) && (code(0x80 + bits) + rest)[3..] == rest
  {
    assert Octet(code(0x80 + bits) + rest) == Some(0x80 + bits);
  }

  lemma {:induction false} OneReads(code: Coder, a: nat, rest: string)
    requires Reads(code)
    requires a < 64
    ensures Continuations(code(0x80 + a) + rest, 1) == Some(a)
  {
    ContinuationReads(code, a, rest);
    assert Continuations(rest, 0) == Some(0) && Bits(a, 0) == a;
  }

  lemma {:induction false} TwoRead(code: Coder, a: nat, b: nat, rest: string)
    requires Reads(code)
    requires a < 64 && b < 64
    ensures Continuations(code(0x80 + a) + (code(0x80 + b) + rest), 2) == Some(64 * a + b)
  {
    ContinuationReads(code, a, code(0x80 + b) + rest);
    OneReads(code, b, rest);
    assert Bits(a, 1) == 64 * a;
  }

  lemma {:induction false} ThreeRead(code: Coder, a: nat, b: nat, c: nat, rest: string)
    requires Reads(code)
    requires a < 64 && b < 64 && c < 64
    ensures Continuations(code(0x80 + a) + (code(0x80 + b) + (code(0x80 + c) + rest)), 3) == Some(4096 * a + (64 * b + c))
  {
    ContinuationReads(code, a, code(0x80 + b) + (code(0x80 + c) + rest));
    TwoRead(code, b, c, rest);
    assert Bits(a, 1) == 64 * a && Bits(a, 2) == 64 * Bits(a, 1);
  }

  lemma {:induction false} LeadReads(code: Coder, octet: nat, rest: string)
    requires Reads(code)
    requires octet < 0xF8
    ensures var s := code(octet) + rest;
            && (octet < 0x80 ==> CodedChar(s) == Some((octet as char, 1)))
            && (0xC0 <= octet < 0xE0 ==> CodedChar(s) == Longer(s, octet - 0xC0, 1, 0x80))
            && (0xE0 <= octet < 0xF0 ==> CodedChar(s) == Longer(s, octet - 0xE0, 2, 0x800))
            && (0xF0 <= octet ==> CodedChar(s) == Longer(s, octet - 0xF0, 3, 0x10000))
  {
    assert Octet(code(octet) + rest) == Some(octet);
  }

  predicate IsChar(n: nat) {
    n < 0x11_0000 && !(0xD800 <= n < 0xE000)
  }

  lemma {:induction false} LongerReads(code: Coder, octet: nat, rest: string, lead: nat, n: nat, least: nat, low: nat)
    requires Reads(code)
    requires octet < 256 && Continuations(rest, n) == Some(low)
    requires least <= Bits(lead, n) + low && IsChar(Bits(lead, n) + low)
    ensures Longer(code(octet) + rest, lead, n, least) == Some(((Bits(lead, n) + low) as char, n + 1))
  {
    assert (code(octet) + rest)[3..] == rest;
  }

  lemma {:induction false} ManyBits(a: nat)
    ensures Bits(a, 1) == 64 * a && Bits(a, 2) == 4096 * a && Bits(a, 3) == 262144 * a
  {
    assert Bits(a, 1) == 64 * a && Bits(a, 2) == 64 * Bits(a, 1) && Bits(a, 3) == 64 * Bits(a, 2);
  }

  lemma {:induction false} TwoCoded(code: Coder, a: nat, b: nat, rest: string)
    requires Reads(code)
    requires 2 <= a < 32 && b < 64
    ensures CodedChar(code(0xC0 + a) + (code(0x80 + b) + rest)) == Some(((64 * a + b) as char, 2))
  {
    LeadReads(code, 0xC0 + a, code(0x80 + b) + rest);
    OneReads(code, b, rest);
    ManyBits(a);
    LongerReads(code, 0xC0 + a, code(0x80 + b) + rest, a, 1, 0x80, b);
  }

  lemma {:induction false} ThreeCoded(code: Coder, a: nat, tail: string, low: nat)
    requires Reads(code)
    requires a < 16 && Continuations(tail, 2) == Some(low) && 0x800 <= 4096 * a + low && IsChar(4096 * a + low)
    ensures CodedChar(code(0xE0 + a) + tail) == Some(((4096 * a + low) as char, 3))
  {
    LeadReads(code, 0xE0 + a, tail);
    ManyBits(a);
    LongerReads(code, 0xE0 + a, tail, a, 2, 0x800, low);
  }

  lemma {:induction false} FourCoded(code: Coder, a: nat, tail: string, low: nat)
    requires Reads(code)
    requires a < 8 && Continuations(tail, 3) == Some(low) && 0x10000 <= 262144 * a + low && IsChar(262144 * a + low)
    ensures CodedChar(code(0xF0 + a) + tail) == Some(((262144 * a + low) as char, 4))
  {
    LeadReads(code, 0xF0 + a, tail);
    ManyBits(a);
    LongerReads(code, 0xF0 + a, tail, a, 3, 0x10000, low);
  }

  lemma {:induction false} Sixes(n: nat)
    ensures n == 64 * (n / 64) + n % 64 == 4096 * (n / 4096) + (64 * (n / 64 % 64) + n % 64)
    ensures n == 262144 * (n / 262144) + (4096 * (n / 4096 % 64) + (64 * (n / 64 % 64) + n % 64))
  {
    assert n / 4096 == n / 64 / 64 && n / 262144 == n / 4096 / 64;
  }

  lemma {:induction false} NarrowReads(code: Coder, ch: char, a: nat, b: nat, rest: string)
    requires Reads(code)
    requires 2 <= a < 32 && b < 64 && ch as int == 64 * a + b
    ensures CodedChar(TwoOctets(code, a, b) + rest) == Some((ch, 2)) && |TwoOctets(code, a, b)| == 6
  {
    TwoCoded(code, a, b, rest);
    AddInAnyOrder(code(0xC0 + a), code(0x80 + b), rest);
  }

  lemma {:induction false} AddThree(a: string, b: string, c: string, rest: string)
    ensures (a + (b + c)) + rest == a + (b + (c + rest))
  {
    AddInAnyOrder(b, c, rest);
    AddInAnyOrder(a, b + c, rest);
  }

  lemma {:induction false} AddFour(a: string, b: string, c: string, d: string, rest: string)
    ensures (a + (b + (c + d))) + rest == a + (b + (c + (d + rest)))
  {
    AddThree(b, c, d, rest);
    AddInAnyOrder(a, b + (c + d), rest);
  }

  lemma {:induction false} WideReads(code: Coder, ch: char, a: nat, b: nat, c: nat, rest: string)
    requires Reads(code)
    requires a < 16 && b < 64 && c < 64 && ch as int == 4096 * a + (64 * b + c) && 0x800 <= ch as int
    ensures CodedChar(ThreeOctets(code, a, b, c) + rest) == Some((ch, 3)) && |ThreeOctets(code, a, b, c)| == 9
  {
    TwoRead(code, b, c, rest);
    ThreeCoded(code, a, code(0x80 + b) + (code(0x80 + c) + rest), 64 * b + c);
    AddThree(code(0xE0 + a), code(0x80 + b), code(0x80 + c), rest);
  }

  lemma {:induction false} WidestReads(code: Coder, ch: char, a: nat, b: nat, c: nat, d: nat, rest: string)
    requires Reads(code)
    requires a < 8 && b < 64 && c < 64 && d < 64 && ch as int == 262144 * a + (4096 * b + (64 * c + d)) && 0x10000 <= ch as int
    ensures CodedChar(FourOctets(code, a, b, c, d) + rest) == Some((ch, 4)) && |FourOctets(code, a, b, c, d)| == 12
  {
    ThreeRead(code, b, c, d, rest);
    FourCoded(code, a, code(0x80 + b) + (code(0x80 + c) + (code(0x80 + d) + rest)), 4096 * b + (64 * c + d));
    AddFour(code(0xF0 + a), code(0x80 + b), code(0x80 + c), code(0x80 + d), rest);
  }

  lemma {:induction false} CharReads(code: Coder, ch: char, rest: string)
    requires Reads(code)
    ensures CharCode(code, ch) != "" && |CharCode(code, ch)| % 3 == 0
    ensures CodedChar(CharCode(code, ch) + rest) == Some((ch, |CharCode(code, ch)| / 3))
  {
    var n := ch as int;
    Sixes(n);
    if n < 0x80 {
      LeadReads(code, n, rest);
    } else if n < 0x800 {
      NarrowReads(code, ch, n / 64, n % 64, rest);
    } else if n < 0x10000 {
      WideReads(code, ch, n / 4096, n / 64 % 64, n % 64, rest);
    } else {
      WidestReads(code, ch, n / 262144, n / 4096 % 64, n / 64 % 64, n % 64, rest);
    }
  }

  /** Percent-decoding undoes coding. */
  lemma {:induction false} CodedDecodes(code: Coder, s: string)
    requires Reads(code)
    ensures Decoded(Coded(code, s)) == s
  {
    if s != "" {
      CharReads(code, s[0], Coded(code, s[1..]));
      CodedDecodes(code, s[1..]);
      assert (CharCode(code, s[0]) + Coded(code, s[1..]))[|CharCode(code, s[0])|..] == Coded(code, s[1..]);
      assert [s[0]] + s[1..] == s;
    }
  }

  /* ---- Pointer escapes ---- */

  function Escape(c: char): string {
    if c == '~' then "~0" else if c == '/' then "~1" else [c]
  }

  function Escaped(s: string): (r: string)
    ensures '/' !in r
  {
    if s == "" then "" else Escape(s[0]) + Escaped(s[1..])
  }

  /** Unescaping undoes escaping. */
  lemma {:induction false} EscapedUnescapes(s: string)
    ensures Unescaped(Escaped(s)) == s
  {
    if s != "" {
      var r := Escape(s[0]) + Escaped(s[1..]);
      EscapedUnescapes(s[1..]);
      assert r[|Escape(s[0])|..] == Escaped(s[1..]) && r[0] == Escape(s[0])[0];
      assert s[0] == '~' || s[0] == '/' ==> r[1] == Escape(s[0])[1];
      assert [s[0]] + s[1..] == s;
    }
  }

  /** Whatever a definition is called, there is a reference that by the standards is to it. */
  lemma {:induction false} EveryNameHasAReference(name: string, defs: seq<Member>)
    ensures Named(Coded(PERCENT, Escaped(name)), defs) == Get(defs, name)
  {
    PercentReads();
    CodedDecodes(PERCENT, Escaped(name));
    EscapedUnescapes(name);
    var tokens := Tokens(Coded(PERCENT, Escaped(name)));
    assert tokens == [name];
    assert tokens[0] == name && tokens[1..] == [];
    assert Has(defs, name) ==> Walk(At(defs, name), []) == Some(At(defs, name));
  }
}
