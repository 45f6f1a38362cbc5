/** Secrets and the codes they give: the server's half, and the half of the
    harness that plays the phone. */
module OneTimeCodes {
  import opened Wrappers
  import opened Texts
  import opened Decimals
  import opened Arithmetic
  import opened Base32

  // Secrets, as each half reads them.

  /** The server takes a character down to its low byte to look it up. */
  function ServerPosition(c: char): Option<five> {
    Position((Upper(c) as int % 256) as char)
  }

  function HarnessPosition(c: char): Option<five> {
    Position(Upper(c))
  }

  function ServerBody(text: string): string {
    Until('=', Trim(text))
  }

  function HarnessBody(text: string): string {
    TrimEnd(c => c == '=', text)
  }

  method ServerDecode(text: string) returns (r: Option<seq<byte>>)
    ensures Answers(ServerPosition, ServerBody(text), r)
  {
    r := Decode(ServerBody(text), ServerPosition);
  }

  method HarnessDecode(text: string) returns (r: Option<seq<byte>>)
    ensures Answers(HarnessPosition, HarnessBody(text), r)
  {
    r := Decode(HarnessBody(text), HarnessPosition);
  }

  /** A way to write down the base32 of some bytes: each letter in either case,
      and any amount of padding. */
  ghost predicate Writes(text: string, raw: seq<byte>, symbols: seq<five>, pad: nat) {
    && IsEncoding(raw, symbols)
    && |symbols| <= |text|
    && (forall i :: 0 <= i < |symbols| ==> Upper(text[i]) == Symbol(symbols[i]))
    && text[|symbols|..] == Repeated('=', pad)
  }

  lemma SymbolsArePlain(c: char, n: five)
    requires Upper(c) == Symbol(n)
    ensures c != '=' && !IsWhite(c)
    ensures ServerPosition(c) == Some(n) && HarnessPosition(c) == Some(n)
  {
  }

  /** Where every character is a symbol before the padding, both halves see the
      same body. */
  lemma BodiesOfSymbols(text: string, body: string, pad: nat)
    requires text == body + Repeated('=', pad)
    requires forall i :: 0 <= i < |body| ==> HarnessPosition(body[i]).Some?
    ensures ServerBody(text) == body && HarnessBody(text) == body
  {
    RepeatedIs('=', pad);
    TrimEndOfRepeated('=', body, pad);
    TrimOfPlain(text);
    UntilOfPlain('=', body, Repeated('=', pad));
  }

  /** What the server encodes, both halves decode, padded or not and in either
      case. */
  lemma SecretsReadBack(text: string, raw: seq<byte>, symbols: seq<five>, pad: nat,
                        server: Option<seq<byte>>, harness: Option<seq<byte>>)
    requires Writes(text, raw, symbols, pad)
    requires Answers(ServerPosition, ServerBody(text), server)
    requires Answers(HarnessPosition, HarnessBody(text), harness)
    ensures server == Some(raw) && harness == Some(raw)
  {
    var body := text[..|symbols|];
    assert text == body + Repeated('=', pad);
    forall i | 0 <= i < |body|
      ensures ServerPosition(body[i]) == Some(symbols[i]) && HarnessPosition(body[i]) == Some(symbols[i])
    {
      SymbolsArePlain(body[i], symbols[i]);
    }
    BodiesOfSymbols(text, body, pad);
    EncodingIsAnswered(ServerPosition, raw, symbols, body);
    EncodingIsAnswered(HarnessPosition, raw, symbols, body);
    AnswersAgree(ServerPosition, ServerPosition, body, server, Some(raw));
    AnswersAgree(HarnessPosition, HarnessPosition, body, harness, Some(raw));
  }

  lemma PlacesAreSymbols(c: char)
    requires Position(c).Some?
    ensures Upper(c) == c == Symbol(Position(c).value)
  {
  }

  /** The text the encoder writes for some bytes is read back as those bytes by
      either half. */
  lemma EncodedReadsBack(raw: seq<byte>, text: string, server: Option<seq<byte>>, harness: Option<seq<byte>>)
    requires IsTextOf(raw, text)
    requires Answers(ServerPosition, ServerBody(text), server)
    requires Answers(HarnessPosition, HarnessBody(text), harness)
    ensures server == Some(raw) && harness == Some(raw)
  {
    var symbols: seq<five> :=
      seq(|text|, i requires 0 <= i < |text| && Position(text[i]).Some? => Position(text[i]).value);
    assert Looks(Position, text, symbols);
    forall i | 0 <= i < |symbols|
      ensures Upper(text[i]) == Symbol(symbols[i])
    {
      PlacesAreSymbols(text[i]);
    }
    assert text[|symbols|..] == Repeated('=', 0);
    SecretsReadBack(text, raw, symbols, 0, server, harness);
  }

  lemma LookupsAgree(c: char)
    requires HarnessPosition(c).Some?
    ensures ServerPosition(c) == HarnessPosition(c)
  {
  }

  /** The two halves were written apart so that agreeing means something. They
      give the same bytes for every secret the harness accepts. */
  lemma HarnessIsFollowed(text: string, server: Option<seq<byte>>, harness: Option<seq<byte>>)
    requires Answers(ServerPosition, ServerBody(text), server)
    requires Answers(HarnessPosition, HarnessBody(text), harness)
    ensures server != harness <==> server.Some? && harness.None?
  {
    if harness.Some? {
      var body := HarnessBody(text);
      var pad := TrimEndLeaves('=', text);
      BodiesOfSymbols(text, body, pad);
      forall i | 0 <= i < |body|
        ensures ServerPosition(body[i]) == HarnessPosition(body[i])
      {
        LookupsAgree(body[i]);
      }
      AnswersAgree(ServerPosition, HarnessPosition, body, server, harness);
    }
  }

  /** The server takes a letter outside ASCII for a symbol when its low byte is
      one, and that is the only letter the two look up differently. */
  lemma ReadsALowByteIff(c: char)
    ensures ServerPosition(c) != HarnessPosition(c) <==>
            Upper(c) as int >= 256 && Position((c as int % 256) as char).Some?
  {
  }

  predicate IsSpaced(text: string) {
    text != [] && (IsWhite(text[0]) || IsWhite(text[|text| - 1]))
  }

  /** Something comes after padding. */
  ghost predicate IsFollowed(text: string) {
    exists i, j :: 0 <= i < j < |text| && text[i] == '=' && text[j] != '='
  }

  ghost predicate HasAWideLetter(body: string) {
    exists i :: 0 <= i < |body| && Upper(body[i]) as int >= 256
  }

  lemma AcceptedIsPlain(text: string)
    requires forall i :: 0 <= i < |HarnessBody(text)| ==> HarnessPosition(HarnessBody(text)[i]).Some?
    ensures !IsSpaced(text) && !IsFollowed(text) && !HasAWideLetter(ServerBody(text))
  {
    var body := HarnessBody(text);
    var pad := TrimEndLeaves('=', text);
    RepeatedIs('=', pad);
    BodiesOfSymbols(text, body, pad);
    forall i | 0 <= i < |text|
      ensures !IsWhite(text[i]) && (text[i] == '=' <==> |body| <= i)
    {
      if i < |body| {
        assert text[i] == body[i];
      } else {
        assert text[i] == Repeated('=', pad)[i - |body|];
      }
    }
  }

  lemma {:induction false} PaddingIsRepeated(rest: string)
    requires forall i :: 0 <= i < |rest| ==> rest[i] == '='
    ensures rest == Repeated('=', |rest|)
  {
    RepeatedIs('=', |rest|);
  }

  lemma PlainIsAccepted(text: string)
    requires !IsSpaced(text) && !IsFollowed(text)
    ensures HarnessBody(text) == ServerBody(text)
  {
    TrimOfPlain(text);
    var body := Until('=', text);
    UntilIs('=', text);
    var rest := text[|body|..];
    forall i | 0 <= i < |rest|
      ensures rest[i] == '='
    {
      assert text[|body|] == '=';
      assert text[|body| + i] == rest[i];
    }
    PaddingIsRepeated(rest);
    assert text == body + Repeated('=', |rest|);
    TrimEndOfRepeated('=', body, |rest|);
  }

  /** The two differ on a text if and only if the server finds every character of
      what it reads in the alphabet, and there is white space around the secret,
      or something after its padding, or a letter outside ASCII in it. */
  lemma HalvesDifferIff(text: string, server: Option<seq<byte>>, harness: Option<seq<byte>>)
    requires Answers(ServerPosition, ServerBody(text), server)
    requires Answers(HarnessPosition, HarnessBody(text), harness)
    ensures server != harness <==>
            && (forall i :: 0 <= i < |ServerBody(text)| ==> ServerPosition(ServerBody(text)[i]).Some?)
            && (IsSpaced(text) || IsFollowed(text) || HasAWideLetter(ServerBody(text)))
  {
    HarnessIsFollowed(text, server, harness);
    if harness.Some? {
      AcceptedIsPlain(text);
    } else if server.Some? && !IsSpaced(text) && !IsFollowed(text) {
      PlainIsAccepted(text);
      var i :| 0 <= i < |HarnessBody(text)| && HarnessPosition(HarnessBody(text)[i]).None?;
      ReadsALowByteIff(HarnessBody(text)[i]);
    }
  }

  /** A secret with a letter that is not base32, read by the server alone. */
  lemma ServerReadsALowByte()
    ensures ServerPosition('\U{141}') == Some(0) && HarnessPosition('\U{141}') == None
  {
    ReadsALowByteIff('\U{141}');
  }

  // Codes.

  type Digest = s: seq<byte> | |s| == 20 witness seq(20, _ => 0)

  const PERIOD: nat := 30
  const DIGITS: nat := 6

  /** The four bytes of a digest that its last half byte points at. */
  function Pointed(sum: Digest): (four: seq<byte>)
    ensures |four| == 4
  {
    var offset := sum[19] % 16;
    sum[offset..offset + 4]
  }

  /** The four bytes as a number, without the top bit. */
  function Shifted(a: nat, b: nat, c: nat, d: nat): nat {
    a % 128 * 0x100_0000 + b * 0x1_0000 + c * 0x100 + d
  }

  function SixDigits(sum: Digest): string {
    var offset := sum[19] % 16;
    Padded(DIGITS, Shifted(sum[offset], sum[offset + 1], sum[offset + 2], sum[offset + 3]) % 1_000_000)
  }

  lemma PairSpells(a: nat, b: nat)
    ensures Spelled(256, [a, b]) == a * 256 + b
  {
    assert [a][..0] == [];
    assert Spelled(256, [a]) == a;
    SpelledSnoc(256, [a], b);
    assert [a] + [b] == [a, b];
  }

  lemma FourSpell(four: seq<nat>)
    requires |four| == 4
    ensures Spelled(256, four) == four[0] * 0x100_0000 + four[1] * 0x1_0000 + four[2] * 0x100 + four[3]
  {
    PairSpells(four[0], four[1]);
    SpelledSnoc(256, [four[0], four[1]], four[2]);
    SpelledSnoc(256, [four[0], four[1]] + [four[2]], four[3]);
    assert [four[0], four[1]] + [four[2]] + [four[3]] == four;
  }

  lemma TopBitIsDropped(a: nat, b: nat, c: nat, d: nat)
    requires b < 256 && c < 256 && d < 256
    ensures Shifted(a, b, c, d) == (a * 0x100_0000 + b * 0x1_0000 + c * 0x100 + d) % 0x8000_0000
  {
    Quotient(a * 0x100_0000 + b * 0x1_0000 + c * 0x100 + d, 0x8000_0000, a / 128);
  }

  /** Always six digits, and they are the low six of the truncation of section
      5.3 of RFC 4226: 31 bits of the four bytes the digest points into itself
      at, which are always inside it. */
  lemma SixDigitsOfTheTruncation(sum: Digest)
    ensures |SixDigits(sum)| == 6 && AreDigits(SixDigits(sum))
    ensures Spelled(10, DigitValues(SixDigits(sum))) == Spelled(256, Pointed(sum)) % 0x8000_0000 % 1_000_000
  {
    var four := Pointed(sum);
    FourSpell(four);
    TopBitIsDropped(four[0], four[1], four[2], four[3]);
    MillionIsSixDigits();
    var n := Spelled(256, Pointed(sum)) % 0x8000_0000 % 1_000_000;
    PaddedIsFixed(6, n);
    FixedSpells(6, n);
  }

  lemma MillionIsSixDigits()
    ensures Power(6) == 1_000_000
  {
    assert Power(2) == 100;
    assert Power(4) == 10_000;
  }

  // Being let in.

  /** A counter as the word of 64 bits it is hashed as. */
  function Counter(step: int): nat {
    step % 0x1_0000_0000_0000_0000
  }

  /** Different steps are hashed as different counters, whichever of the steps a
      word can tell apart. */
  lemma CountersApart(a: int, b: int)
    requires a != b && -0x1_0000_0000_0000_0000 < a - b < 0x1_0000_0000_0000_0000
    ensures Counter(a) != Counter(b)
  {
  }

  /** The code a key shows for a step; the keyed hash is a parameter. */
  function CodeFor(hmac: (seq<byte>, nat) -> Digest, key: seq<byte>, step: int): string {
    SixDigits(hmac(key, Counter(step)))
  }

  /** The server tries the step of now, one ahead and one behind. */
  predicate LetsIn(shows: int -> string, code: string, at: int) {
    var said, step := Trim(code), at / PERIOD;
    |said| == DIGITS && said in [shows(step), shows(step + 1), shows(step - 1)]
  }

  predicate Valid(hmac: (seq<byte>, nat) -> Digest, code: string, key: Option<seq<byte>>, at: int) {
    key.Some? && LetsIn(step => CodeFor(hmac, key.value, step), code, at)
  }

  /** A code is let in exactly when it is the code of some instant no more than
      a step away. */
  lemma LetsInIff(shows: int -> string, code: string, at: int)
    requires forall step :: |shows(step)| == DIGITS
    ensures LetsIn(shows, code, at) <==>
            exists shown: int :: at / PERIOD - 1 <= shown / PERIOD <= at / PERIOD + 1
                              && shows(shown / PERIOD) == Trim(code)
  {
    var said, step := Trim(code), at / PERIOD;
    if LetsIn(shows, code, at) {
      var near := if shows(step) == said then step else if shows(step + 1) == said then step + 1 else step - 1;
      assert (PERIOD * near) / PERIOD == near;
    }
  }

  /** Where no two steps show one code, a code shown at an instant is let in for less
      than a minute either way. */
  lemma CodesExpire(shows: int -> string, code: string, shown: int, at: int)
    requires forall s, t :: s != t ==> shows(s) != shows(t)
    requires Trim(code) == shows(shown / 30) && LetsIn(shows, code, at)
    ensures -60 < at - shown < 60
  {
    var step := at / PERIOD;
    assert shown / 30 == step || shown / 30 == step + 1 || shown / 30 == step - 1;
  }

  lemma NearInstants(shown: int, at: int)
    requires shown - 30 <= at <= shown + 30
    ensures at / PERIOD - 1 <= shown / PERIOD <= at / PERIOD + 1
  {
  }

  lemma NearCodesAreLetIn(shows: int -> string, shown: int, at: int)
    requires |shows(shown / PERIOD)| == DIGITS && AreDigits(shows(shown / PERIOD))
    requires shown - 30 <= at <= shown + 30
    ensures LetsIn(shows, shows(shown / PERIOD), at)
  {
    TrimOfPlain(shows(shown / PERIOD));
    NearInstants(shown, at);
  }

  /** What a phone shows is let in for thirty seconds either side. */
  lemma CodesLast(hmac: (seq<byte>, nat) -> Digest, key: seq<byte>, shown: int, at: int)
    requires shown - 30 <= at <= shown + 30
    ensures Valid(hmac, CodeFor(hmac, key, shown / PERIOD), Some(key), at)
  {
    SixDigitsOfTheTruncation(hmac(key, Counter(shown / PERIOD)));
    NearCodesAreLetIn(step => CodeFor(hmac, key, step), shown, at);
  }

  /** The comparison that reads to the end whatever it finds. */
  method Same(a: seq<bv8>, b: seq<bv8>) returns (r: bool)
    ensures r <==> a == b
  {
    if |a| != |b| {
      return false;
    }
    var acc: bv8 := 0;
    for i := 0 to |a|
      invariant acc == 0 <==> a[..i] == b[..i]
    {
      OrOfXor(acc, a[i], b[i]);
      assert a[..i + 1] == a[..i] + [a[i]] && b[..i + 1] == b[..i] + [b[i]];
      acc := acc | (a[i] ^ b[i]);
    }
    assert a[..|a|] == a && b[..|b|] == b;
    return acc == 0;
  }

  lemma OrOfXor(acc: bv8, x: bv8, y: bv8)
    ensures acc | (x ^ y) == 0 <==> acc == 0 && x == y
  {
  }
}
