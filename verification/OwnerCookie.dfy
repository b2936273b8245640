/** The short-lived signed cookie of the owner's diagnostics pages (nabla/api/owner_ui_session.py).
    The keyed hash is any function with the shape of its digests. */
module OwnerCookie {
  import opened Decimal
  import opened TextTools
  import opened Wrappers

  const SESSION_SECONDS := 1200
  const CLOCK_SKEW := 30
  const MAX_LENGTH := 180
  const CONTEXT := "nabla:owner-ui-session:v1:"

  /** What the library provides: the keyed hash, from secret and message to a digest in hexadecimal, and the
      characters that count as decimal digits. */
  datatype Library = Library(mac: (string, string) -> string, digits: Digits)

  predicate LowerHex(s: string, length: nat) {
    |s| == length && forall i :: 0 <= i < |s| ==> IsDigit(s[i]) || 'a' <= s[i] <= 'f'
  }

  lemma LowerHexMeaning(s: string, length: nat)
    ensures LowerHex(s, length) <==> |s| == length && forall c :: c in s ==> c in "0123456789abcdef"
  {
    var all := "0123456789abcdef";
    forall c: char ensures IsDigit(c) || 'a' <= c <= 'f' <==> c in all {
      if IsDigit(c) {
        assert all[c as int - '0' as int] == c;
      } else if 'a' <= c <= 'f' {
        assert all[10 + (c as int - 'a' as int)] == c;
      }
    }
    if forall c :: c in s ==> c in all {
      forall i | 0 <= i < |s| ensures s[i] in all {
      }
    }
  }

  ghost predicate Sound(library: Library) {
    && DecimalDigits(library.digits)
    && forall secret, message :: LowerHex(library.mac(secret, message), 64)
  }

  predicate IsAscii(s: string) {
    forall i :: 0 <= i < |s| ==> s[i] < 128 as char
  }

  // ---------------------------------------------------------------- integers as text

  function RenderInt(n: int): string {
    if n < 0 then "-" + Render(-n) else Render(n)
  }

  /** Digits, where single underscores may stand between two digits. */
  predicate Grouped(s: string, digits: Digits) {
    && s != "" && digits(s[0]).Some? && digits(s[|s| - 1]).Some?
    && (forall i :: 0 <= i < |s| ==> digits(s[i]).Some? || s[i] == '_')
    && forall i :: 0 < i < |s| && s[i] == '_' ==> s[i - 1] != '_'
  }

  function Ungrouped(s: string, digits: Digits): (r: string)
    requires forall i :: 0 <= i < |s| ==> digits(s[i]).Some? || s[i] == '_'
    ensures AllDigits(r, digits)
    ensures AllDigits(s, digits) && '_' !in s ==> r == s
  {
    if s == "" then "" else (if s[0] == '_' then "" else [s[0]]) + Ungrouped(s[1..], digits)
  }

  function ParseDigits(s: string, digits: Digits): Option<int> {
    if Grouped(s, digits) then Some(Value(Ungrouped(s, digits), digits)) else None
  }

  function Negated(n: Option<int>): Option<int> {
    match n
    case None => None
    case Some(m) => Some(-m)
  }

  function Unsigned(s: string): string {
    if s != "" && (s[0] == '-' || s[0] == '+') then s[1..] else s
  }

  function ParseSigned(s: string, digits: Digits): Option<int> {
    var n := ParseDigits(Unsigned(s), digits);
    if s != "" && s[0] == '-' then Negated(n) else n
  }

  /** What `int` makes of a text: surrounding whitespace, a sign and grouping are allowed. */
  function ParseInt(text: string, digits: Digits): Option<int> {
    ParseSigned(Strip(text), digits)
  }

  lemma DigitsParse(n: nat, digits: Digits)
    requires DecimalDigits(digits)
    ensures ParseDigits(Render(n), digits) == Some(n)
  {
    ValueOfRender(n, digits);
    RenderIsCanonical(n);
    assert '_' !in Render(n);
    assert Grouped(Render(n), digits);
  }

  lemma SignedParse(n: int, digits: Digits)
    requires DecimalDigits(digits)
    ensures ParseSigned(RenderInt(n), digits) == Some(n)
  {
    var m := if n < 0 then -n else n;
    RenderIsCanonical(m);
    DigitsParse(m, digits);
    RenderedUnsigned(n);
  }

  lemma RenderedUnsigned(n: int)
    ensures Unsigned(RenderInt(n)) == Render(if n < 0 then -n else n)
    ensures RenderInt(n) != "" && (RenderInt(n)[0] == '-' <==> n < 0)
  {
    var m := if n < 0 then -n else n;
    RenderIsCanonical(m);
    assert n < 0 ==> RenderInt(n)[1..] == Render(m);
  }

  lemma RenderedEnds(n: int)
    ensures RenderInt(n) != "" && Stripped(RenderInt(n)) && '.' !in RenderInt(n) && IsAscii(RenderInt(n))
  {
    var m := if n < 0 then -n else n;
    RenderIsCanonical(m);
    assert RenderInt(n)[|RenderInt(n)| - 1] == Render(m)[|Render(m)| - 1];
  }

  lemma ParseOfRender(n: int, digits: Digits)
    requires DecimalDigits(digits)
    ensures ParseInt(RenderInt(n), digits) == Some(n)
  {
    RenderedEnds(n);
    SignedParse(n, digits);
    ParseOfStripped(RenderInt(n), digits);
  }

  lemma ParseOfStripped(s: string, digits: Digits)
    requires Stripped(s)
    ensures ParseInt(s, digits) == ParseSigned(s, digits)
  {
    StripFacts(s);
  }

  /** Surrounding whitespace and a plus sign change nothing, and a minus sign negates. */
  lemma PaddedParse(before: string, text: string, after: string, digits: Digits)
    requires (forall c :: c in before ==> IsSpace(c)) && (forall c :: c in after ==> IsSpace(c))
    requires text != "" && Stripped(text)
    ensures ParseInt(before + text + after, digits) == ParseSigned(text, digits)
    ensures text[0] != '-' && text[0] != '+' ==>
              && ParseSigned("+" + text, digits) == ParseSigned(text, digits)
              && ParseSigned("-" + text, digits) == Negated(ParseSigned(text, digits))
  {
    StripPadding(before, text, after);
    assert ("+" + text)[1..] == text && ("-" + text)[1..] == text;
  }

  /** A numeral is read as its value, and a single underscore inside it is passed over. */
  lemma GroupedParse(a: string, b: string, digits: Digits)
    requires Numeral(a, digits) && Numeral(b, digits) && digits('_').None?
    ensures ParseDigits(a, digits) == Some(Value(a, digits))
    ensures ParseDigits(a + "_" + b, digits) == Some(Value(a + b, digits))
  {
    hide Value, Ungrouped;
    UngroupedPair(a, b, digits);
    var s := a + "_" + b;
    assert forall i :: 0 <= i < |a| ==> s[i] == a[i];
    assert forall i :: 0 <= i < |b| ==> s[|a| + 1 + i] == b[i];
    assert s[|a|] == '_';
  }

  lemma UngroupedPair(a: string, b: string, digits: Digits)
    requires Numeral(a, digits) && Numeral(b, digits) && digits('_').None?
    ensures forall i :: 0 <= i < |a + "_" + b| ==> digits((a + "_" + b)[i]).Some? || (a + "_" + b)[i] == '_'
    ensures Ungrouped(a, digits) == a && Ungrouped(a + "_" + b, digits) == a + b
  {
    var tail := "_" + b;
    assert a + tail == a + "_" + b;
    UngroupedTail(b, digits);
    UngroupedJoins(a, tail, digits);
  }

  lemma UngroupedTail(b: string, digits: Digits)
    requires AllDigits(b, digits) && digits('_').None?
    ensures var tail := "_" + b;
            && (forall i :: 0 <= i < |tail| ==> digits(tail[i]).Some? || tail[i] == '_')
            && Ungrouped(tail, digits) == b
  {
    var tail := "_" + b;
    assert tail[0] == '_' && tail[1..] == b;
    assert Ungrouped(b, digits) == b;
  }

  lemma {:induction false} UngroupedJoins(a: string, b: string, digits: Digits)
    requires AllDigits(a, digits) && forall i :: 0 <= i < |b| ==> digits(b[i]).Some? || b[i] == '_'
    ensures Ungrouped(a + b, digits) == Ungrouped(a, digits) + Ungrouped(b, digits)
  {
    if a == "" {
      assert a + b == b;
    } else {
      assert (a + b)[1..] == a[1..] + b;
      UngroupedJoins(a[1..], b, digits);
    }
  }

  /** There is no empty number, and no other character before, in or after one, a second underscore included. */
  lemma UngroupedRefused(a: string, b: string, c: char, digits: Digits)
    requires digits(c).None?
    ensures ParseDigits("", digits) == None
    ensures ParseDigits(a + [c], digits) == None && ParseDigits([c] + b, digits) == None
    ensures c != '_' || (a != "" && a[|a| - 1] == '_') ==> ParseDigits(a + [c] + b, digits) == None
  {
    var s := a + [c] + b;
    assert s[|a|] == c && (a != "" ==> s[|a| - 1] == a[|a| - 1]);
    assert (a + [c])[|a|] == c;
  }

  // ---------------------------------------------------------------- the cookie

  function Signature(library: Library, secret: string, payload: string): string {
    library.mac(secret, CONTEXT + payload)
  }

  function Payload(issued: int, nonce: string): string {
    RenderInt(issued) + "." + RenderInt(issued + SESSION_SECONDS) + "." + nonce
  }

  /** `nonce` is the fresh random part. */
  function Create(library: Library, secret: string, now: int, nonce: string): string {
    Payload(now, nonce) + "." + Signature(library, secret, Payload(now, nonce))
  }

  /** What is asked of the parts, given the times they name and the signature they should carry. */
  predicate PartsValid(nonce: string, signature: string, issued: Option<int>, expiry: Option<int>, expected: string,
                       now: int) {
    if !LowerHex(nonce, 32) || !LowerHex(signature, 64) || issued.None? || expiry.None? then false
    else if issued.value > now + CLOCK_SKEW || expiry.value <= now then false
    else if expiry.value != issued.value + SESSION_SECONDS then false
    else signature == expected
  }

  predicate Valid(library: Library, token: Option<string>, secret: Option<string>, now: int) {
    if token.None? || token.value == "" || |token.value| > MAX_LENGTH || secret.None? || secret.value == "" then false
    else SplitValid(library, Split(token.value, '.'), secret.value, now)
  }

  /** The signature is made over ASCII bytes: a payload with other digits raises an error instead. */
  predicate SplitValid(library: Library, parts: seq<string>, secret: string, now: int) {
    && |parts| == 4
    && IsAscii(Join(parts[..3], '.'))
    && PartsValid(parts[2], parts[3], ParseInt(parts[0], library.digits), ParseInt(parts[1], library.digits),
                  Signature(library, secret, Join(parts[..3], '.')), now)
  }

  /** Four dotted parts that make up an acceptable token: two times 1200 seconds apart, in decimal, a nonce and
      the signature of the three under the secret. */
  ghost predicate Signed(library: Library, token: string, secret: string, issued: int, a: string, b: string,
                         nonce: string)
  {
    var payload := a + "." + b + "." + nonce;
    var signature := library.mac(secret, "nabla:owner-ui-session:v1:" + payload);
    && token == payload + "." + signature && LowerHex(signature, 64)
    && '.' !in a && '.' !in b && LowerHex(nonce, 32) && IsAscii(payload)
    && ParseInt(a, library.digits) == Some(issued) && ParseInt(b, library.digits) == Some(issued + 1200)
  }

  ghost predicate SignedAt(library: Library, token: string, secret: string, issued: int) {
    exists a, b, nonce :: Signed(library, token, secret, issued, a, b, nonce)
  }

  /** What is accepted: a configured secret and a token of at most 180 characters that is signed under it, from
      30 seconds before the time it names to 1200 seconds after it. */
  lemma AcceptedIff(library: Library, token: Option<string>, secret: Option<string>, now: int)
    ensures Valid(library, token, secret, now) <==>
              && token.Some? && secret.Some? && secret.value != "" && |token.value| <= 180
              && exists issued :: issued - 30 <= now < issued + 1200 &&
                                  SignedAt(library, token.value, secret.value, issued)
  {
    if Valid(library, token, secret, now) {
      AcceptedIsSigned(library, token.value, secret.value, now);
    }
    if token.Some? && secret.Some? && secret.value != "" && |token.value| <= 180 {
      forall issued | issued - 30 <= now < issued + 1200 && SignedAt(library, token.value, secret.value, issued)
        ensures Valid(library, token, secret, now)
      {
        var a, b, nonce :| Signed(library, token.value, secret.value, issued, a, b, nonce);
        SignedIsAccepted(library, token.value, secret.value, issued, a, b, nonce, now);
      }
    }
  }

  lemma AcceptedIsSigned(library: Library, token: string, secret: string, now: int)
    requires Valid(library, Some(token), Some(secret), now)
    ensures exists issued :: issued - 30 <= now < issued + 1200 && SignedAt(library, token, secret, issued)
  {
    hide ParseInt, LowerHex, IsAscii, Split, Join;
    var parts := Split(token, '.');
    var a, b, nonce, signature := parts[0], parts[1], parts[2], parts[3];
    var issued := ParseInt(a, library.digits).value;
    JoinOfSplit(token, '.');
    assert parts == [a, b, nonce, signature];
    JoinOfFour(a, b, nonce, signature);
    assert Signed(library, token, secret, issued, a, b, nonce);
    assert SignedAt(library, token, secret, issued);
  }

  lemma SignedIsAccepted(library: Library, token: string, secret: string, issued: int, a: string, b: string,
                         nonce: string, now: int)
    requires Signed(library, token, secret, issued, a, b, nonce) && secret != "" && |token| <= 180
    requires issued - 30 <= now < issued + 1200
    ensures Valid(library, Some(token), Some(secret), now)
  {
    var signature := Signature(library, secret, a + "." + b + "." + nonce);
    HexIsPlain(nonce, 32);
    HexIsPlain(signature, 64);
    FourParts(a, b, nonce, signature);
    ValidOfParts(library, Split(token, '.'), secret, now, issued);
  }

  /** A created cookie with any other text in place of its signature is refused at every time. */
  lemma OtherSignatureRefused(library: Library, secret: string, issued: int, nonce: string, signature: string,
                              now: int)
    requires Sound(library) && LowerHex(nonce, 32) && '.' !in signature
    requires signature != library.mac(secret, "nabla:owner-ui-session:v1:" + Payload(issued, nonce))
    ensures !Valid(library, Some(Payload(issued, nonce) + "." + signature), Some(secret), now)
  {
    RenderedEnds(issued);
    RenderedEnds(issued + SESSION_SECONDS);
    HexIsPlain(nonce, 32);
    FourParts(RenderInt(issued), RenderInt(issued + SESSION_SECONDS), nonce, signature);
  }

  /** Under another secret a created cookie is accepted only if both secrets give it the same signature. */
  lemma OtherSecretRefused(library: Library, secret: string, other: string, issued: int, nonce: string, now: int)
    requires Sound(library) && LowerHex(nonce, 32)
    requires Valid(library, Some(Create(library, secret, issued, nonce)), Some(other), now)
    ensures var message := "nabla:owner-ui-session:v1:" + Payload(issued, nonce);
            library.mac(other, message) == library.mac(secret, message)
  {
    var signature := Signature(library, secret, Payload(issued, nonce));
    HexIsPlain(signature, 64);
    if signature != Signature(library, other, Payload(issued, nonce)) {
      OtherSignatureRefused(library, other, issued, nonce, signature, now);
    }
  }

  /** Every token is either never accepted under a secret, or accepted exactly from 30 seconds before the
      time it names to 1200 seconds after it. */
  lemma AcceptedInOneWindow(library: Library, token: Option<string>, secret: Option<string>)
    ensures || (forall now :: !Valid(library, token, secret, now))
            || exists issued :: AcceptedFrom(library, token, secret, issued)
  {
    if now :| Valid(library, token, secret, now) {
      var issued := ParseInt(Split(token.value, '.')[0], library.digits).value;
      assert AcceptedFrom(library, token, secret, issued);
    }
  }

  ghost predicate AcceptedFrom(library: Library, token: Option<string>, secret: Option<string>, issued: int) {
    forall now :: Valid(library, token, secret, now) <==> issued - 30 <= now < issued + 1200
  }

  /** No token at all is accepted at two times 1230 seconds or more apart, under whatever secrets. */
  lemma LifetimeIsBounded(library: Library, token: Option<string>, secret: Option<string>, secret': Option<string>,
                          now: int, later: int)
    requires Valid(library, token, secret, now) && Valid(library, token, secret', later)
    ensures later < now + 1230
  {
  }

  lemma PartsOfCreated(library: Library, secret: string, issued: int, nonce: string)
    requires Sound(library) && LowerHex(nonce, 32)
    ensures var signature := Signature(library, secret, Payload(issued, nonce));
            var parts := [RenderInt(issued), RenderInt(issued + SESSION_SECONDS), nonce, signature];
            && Split(Create(library, secret, issued, nonce), '.') == parts
            && Join(parts[..3], '.') == Payload(issued, nonce) && IsAscii(Payload(issued, nonce))
  {
    var a, b := RenderInt(issued), RenderInt(issued + SESSION_SECONDS);
    var signature := Signature(library, secret, Payload(issued, nonce));
    RenderedEnds(issued);
    RenderedEnds(issued + SESSION_SECONDS);
    HexIsPlain(nonce, 32);
    HexIsPlain(signature, 64);
    FourParts(a, b, nonce, signature);
    AsciiJoins(a, b, nonce);
  }

  lemma HexIsPlain(s: string, length: nat)
    requires LowerHex(s, length)
    ensures '.' !in s && IsAscii(s)
  {
  }

  lemma AsciiJoins(a: string, b: string, c: string)
    requires IsAscii(a) && IsAscii(b) && IsAscii(c)
    ensures IsAscii(a + "." + b + "." + c)
  {
    AsciiConcat(a, ".");
    AsciiConcat(a + ".", b);
    AsciiConcat(a + "." + b, ".");
    AsciiConcat(a + "." + b + ".", c);
  }

  lemma AsciiConcat(a: string, b: string)
    requires IsAscii(a) && IsAscii(b)
    ensures IsAscii(a + b)
  {
  }

  lemma FourParts(a: string, b: string, c: string, d: string)
    requires '.' !in a && '.' !in b && '.' !in c && '.' !in d
    ensures Split(a + "." + b + "." + c + "." + d, '.') == [a, b, c, d]
    ensures Join([a, b, c, d][..3], '.') == a + "." + b + "." + c
  {
    JoinOfFour(a, b, c, d);
    SplitOfJoin([a, b, c, d], '.');
  }

  lemma JoinOfFour(a: string, b: string, c: string, d: string)
    ensures Join([a, b, c, d], '.') == a + "." + b + "." + c + "." + d
    ensures Join([a, b, c, d][..3], '.') == a + "." + b + "." + c
  {
    assert [a, b, c, d][..3] == [a, b, c];
    assert [a, b, c, d][1..] == [b, c, d] && [b, c, d][1..] == [c, d] && [c, d][1..] == [d];
    assert [a, b, c][1..] == [b, c] && [b, c][1..] == [c];
    assert Join([c, d], '.') == c + "." + d;
    assert Join([b, c, d], '.') == b + "." + (c + "." + d);
    assert Join([b, c], '.') == b + "." + c;
  }

  /** A cookie created at one time and not too long is accepted under the same secret exactly in its
      window. */
  lemma CreatedIsAcceptedInWindow(library: Library, secret: string, issued: int, nonce: string, now: int)
    requires Sound(library) && LowerHex(nonce, 32) && secret != ""
    ensures Valid(library, Some(Create(library, secret, issued, nonce)), Some(secret), now) <==>
              |Create(library, secret, issued, nonce)| <= 180 && issued - 30 <= now < issued + 1200
  {
    PartsOfCreated(library, secret, issued, nonce);
    ParseOfRender(issued, library.digits);
    ParseOfRender(issued + SESSION_SECONDS, library.digits);
    ValidOfParts(library, Split(Create(library, secret, issued, nonce), '.'), secret, now, issued);
  }

  lemma ValidOfParts(library: Library, parts: seq<string>, secret: string, now: int, issued: int)
    requires |parts| == 4 && LowerHex(parts[2], 32) && LowerHex(parts[3], 64)
    requires ParseInt(parts[0], library.digits) == Some(issued)
    requires ParseInt(parts[1], library.digits) == Some(issued + SESSION_SECONDS)
    requires parts[3] == Signature(library, secret, Join(parts[..3], '.')) && IsAscii(Join(parts[..3], '.'))
    ensures SplitValid(library, parts, secret, now) <==> issued - CLOCK_SKEW <= now < issued + SESSION_SECONDS
  {
    WindowOfParts(parts[2], parts[3], issued, now);
  }

  lemma WindowOfParts(nonce: string, signature: string, issued: int, now: int)
    requires LowerHex(nonce, 32) && LowerHex(signature, 64)
    ensures PartsValid(nonce, signature, Some(issued), Some(issued + SESSION_SECONDS), signature, now) <==>
              issued - CLOCK_SKEW <= now < issued + SESSION_SECONDS
  {
  }

  /** The length limit never bites before the clock needs forty digits. */
  lemma {:induction false} RenderedLength(n: nat, digits: nat, bound: nat)
    requires digits > 0 && bound == PowerOfTen(digits) && n < bound
    ensures |Render(n)| <= digits
    decreases digits
  {
    if n >= 10 {
      RenderedLength(n / 10, digits - 1, PowerOfTen(digits - 1));
    }
  }

  function PowerOfTen(n: nat): nat {
    if n == 0 then 1 else 10 * PowerOfTen(n - 1)
  }

  lemma CreatedFitsTheLimit(library: Library, secret: string, issued: int, nonce: string)
    requires Sound(library) && LowerHex(nonce, 32) && 0 <= issued && issued + SESSION_SECONDS < PowerOfTen(40)
    ensures |Create(library, secret, issued, nonce)| <= 180
  {
    RenderedLength(issued, 40, PowerOfTen(40));
    RenderedLength(issued + SESSION_SECONDS, 40, PowerOfTen(40));
    assert |Signature(library, secret, Payload(issued, nonce))| == 64;
  }
}
