/** Which definition a local reference names, by the standards: the fragment of RFC 3986 section 2.1
    is percent-decoded, and its text is a JSON Pointer of RFC 6901 sections 3 to 6. */
module SchemaPointers {
  import opened Wrappers
  import opened Json
  import Decimals

  /* ---- Percent codes ---- */

  function HexValue(c: char): Option<nat> {
    if '0' <= c <= '9' then Some(c as int - '0' as int)
    else if 'A' <= c <= 'F' then Some(c as int - 'A' as int + 10)
    else if 'a' <= c <= 'f' then Some(c as int - 'a' as int + 10)
    else None
  }

  /** The octet coded by the first three characters. */
  function Octet(s: string): (r: Option<nat>)
    ensures r.Some? ==> |s| >= 3 && s[0] == '%' && r.value < 256
  {
    if |s| >= 3 && s[0] == '%' && HexValue(s[1]).Some? && HexValue(s[2]).Some?
    then Some(16 * HexValue(s[1]).value + HexValue(s[2]).value) else None
  }

  /** The low six bits of a UTF-8 continuation octet coded at the start. */
  function Continuation(s: string): (r: Option<nat>)
    ensures r.Some? ==> |s| >= 3 && r.value < 64
  {
    if Octet(s).Some? && 0x80 <= Octet(s).value < 0xC0 then Some(Octet(s).value - 0x80) else None
  }

  /** The bits of `n` continuation octets coded at the start. */
  function Continuations(s: string, n: nat): (r: Option<nat>)
    ensures r.Some? ==> |s| >= 3 * n
  {
    if n == 0 then Some(0)
    else if Continuation(s).None? then None
    else match Continuations(s[3..], n - 1)
         case None => None
         case Some(low) => Some(Bits(Continuation(s).value, n - 1) + low)
  }

  /** `high` followed by `n` groups of six zero bits. */
  function Bits(high: nat, n: nat): nat {
    if n == 0 then high else 64 * Bits(high, n - 1)
  }

  /** The character whose UTF-8 octets are coded at the start, and how many there are. */
  function CodedChar(s: string): (r: Option<(char, nat)>)
    ensures r.Some? ==> r.value.1 >= 1 && |s| >= 3 * r.value.1
  {
    if Octet(s).None? then None else
    var lead := Octet(s).value;
    if lead < 0x80 then Some((lead as char, 1))
    else if 0xC0 <= lead < 0xE0 then Longer(s, lead - 0xC0, 1, 0x80)
    else if 0xE0 <= lead < 0xF0 then Longer(s, lead - 0xE0, 2, 0x800)
    else if 0xF0 <= lead < 0xF8 then Longer(s, lead - 0xF0, 3, 0x10000)
    else None
  }

  /** A lead octet's bits followed by `n` continuations, unless the code is too small or no character. */
  function Longer(s: string, lead: nat, n: nat, least: nat): (r: Option<(char, nat)>)
    requires |s| >= 3
    ensures r.Some? ==> r.value.1 == n + 1 && |s| >= 3 * (n + 1)
  {
    match Continuations(s[3..], n)
    case None => None
    case Some(low) =>
      var code := Bits(lead, n) + low;
      if code < least || code >= 0x11_0000 || 0xD800 <= code < 0xE000 then None else Some((code as char, n + 1))
  }

  /** Percent-decoding; a `%` that codes no character stands for itself. */
  function Decoded(s: string): (r: string)
    ensures r == s || |r| < |s|
  {
    if s == "" then ""
    else match CodedChar(s)
         case Some((c, n)) => [c] + Decoded(s[3 * n..])
         case None => assert [s[0]] + s[1..] == s; [s[0]] + Decoded(s[1..])
  }

  /* ---- Pointers ---- */

  /** The parts of a text between its slashes. */
  function Split(s: string): (r: seq<string>)
    ensures r != [] && |r[0]| <= |s|
    ensures '/' !in s ==> r == [s]
  {
    if s == "" then [""]
    else
      var rest := Split(s[1..]);
      assert [s[0]] + s[1..] == s;
      if s[0] == '/' then [""] + rest else [[s[0]] + rest[0]] + rest[1..]
  }

  /** `~1` stands for a slash and `~0` for a tilde. */
  function Unescaped(s: string): (r: string)
    ensures r == s || |r| < |s|
  {
    if s == "" then ""
    else if |s| >= 2 && s[0] == '~' && s[1] == '0' then "~" + Unescaped(s[2..])
    else if |s| >= 2 && s[0] == '~' && s[1] == '1' then "/" + Unescaped(s[2..])
    else assert [s[0]] + s[1..] == s; [s[0]] + Unescaped(s[1..])
  }

  /** The reference tokens that follow the definition table in a reference to `name`. */
  function Tokens(name: string): (r: seq<string>)
    ensures |r| == |Split(Decoded(name))|
  {
    Map(Unescaped, Split(Decoded(name)))
  }

  /** The list item at the position that `token` spells, among the first `n`. */
  function ItemAt(items: seq<Json>, token: string, n: nat): Option<Json>
    requires n <= |items|
  {
    if n == 0 then None
    else if Decimals.Dec(n - 1) == token then Some(items[n - 1])
    else ItemAt(items, token, n - 1)
  }

  function Walk(j: Json, tokens: seq<string>): Option<Json>
    decreases tokens
  {
    if tokens == [] then Some(j) else
    match j
    case JObj(members) => if Has(members, tokens[0]) then Walk(At(members, tokens[0]), tokens[1..]) else None
    case JArr(items) =>
      (match ItemAt(items, tokens[0], |items|)
       case None => None
       case Some(item) => Walk(item, tokens[1..]))
    case _ => None
  }

  /** The schema a reference into the definition table is to. */
  function Named(name: string, defs: seq<Member>): Option<Json> {
    Walk(JObj(defs), Tokens(name))
  }

  /* ---- Literal names ---- */

  /** A name without escapes is its own only token. */
  predicate IsLiteral(name: string) {
    Tokens(name) == [name]
  }

  /** Decoding and unescaping only shorten, so a name that is not literal leads to another entry. */
  lemma {:induction false} FirstTokenDiffers(name: string)
    requires '/' !in name && !IsLiteral(name)
    ensures Tokens(name) != [] && Tokens(name)[0] != name
  {
    var parts := Split(Decoded(name));
    assert Tokens(name)[0] == Unescaped(parts[0]);
    assert Decoded(name) == name ==> |parts| == 1 && Tokens(name) == [Unescaped(name)];
  }

  lemma {:induction false} LiteralNamed(name: string, defs: seq<Member>)
    requires IsLiteral(name)
    ensures Named(name, defs) == Get(defs, name)
  {
    assert Tokens(name)[0] == name && Tokens(name)[1..] == [];
    assert Has(defs, name) ==> Walk(At(defs, name), []) == Some(At(defs, name));
  }

  lemma {:induction false} AbsentNamed(name: string, defs: seq<Member>)
    requires !Has(defs, Tokens(name)[0])
    ensures Named(name, defs) == None
  {
  }
}
