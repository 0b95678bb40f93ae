/** CSRF tokens (`src/password-reset/django-csrf.ts`) and the double-submit check of the form pages
    (`src/password-reset/password-reset.controller.ts`). Masks and fresh secrets are inputs. */
module Csrf {
  import opened Options

  const ALPHABET_SIZE := 62
  const CSRF_SECRET_LENGTH := 32

  predicate IsAllowed(c: char) {
    'a' <= c <= 'z' || 'A' <= c <= 'Z' || '0' <= c <= '9'
  }

  /** The position of a character in lower-case, upper-case, digits order. */
  function IndexOf(c: char): (i: nat)
    requires IsAllowed(c)
    ensures i < 62 && CharAt(i) == c
  {
    if 'a' <= c <= 'z' then c as int - 'a' as int
    else if 'A' <= c <= 'Z' then 26 + c as int - 'A' as int
    else 52 + c as int - '0' as int
  }

  function CharAt(i: nat): (c: char)
    requires i < 62
    ensures IsAllowed(c)
  {
    if i < 26 then ('a' as int + i) as char
    else if i < 52 then ('A' as int + i - 26) as char
    else ('0' as int + i - 52) as char
  }

  lemma CharAtIndex(i: nat)
    requires i < 62
    ensures IndexOf(CharAt(i)) == i
  {}

  /** The alphabet's order: the lower-case letters from 0, the upper-case ones from 26, the digits from 52,
      each run without a gap. */
  lemma AlphabetInOrder(c: char)
    requires IsAllowed(c)
    ensures IndexOf('a') == 0 && IndexOf('z') == 25 && IndexOf('A') == 26 && IndexOf('Z') == 51
    ensures IndexOf('0') == 52 && IndexOf('9') == 61
    ensures c !in {'z', 'Z', '9'} ==> IsAllowed((c as int + 1) as char) && IndexOf((c as int + 1) as char) == IndexOf(c) + 1
    ensures forall d :: IsAllowed(d) && IndexOf(d) == IndexOf(c) ==> d == c
  {}

  predicate IsCsrfCharset(s: string) {
    s != "" && forall i :: 0 <= i < |s| ==> IsAllowed(s[i])
  }

  type Secret = s: string | IsCsrfCharset(s) && |s| == 32 witness "aaaaaaaaaaaaaaaaaaaaaaaaaaaaaaaa"

  // ---------------------------------------------------------------------
  // Masking
  // ---------------------------------------------------------------------

  function Shift(c: char, key: char): (r: char)
    requires IsAllowed(c) && IsAllowed(key)
    ensures IsAllowed(r)
  {
    CharAt((IndexOf(c) + IndexOf(key)) % ALPHABET_SIZE)
  }

  function Unshift(c: char, key: char): (r: char)
    requires IsAllowed(c) && IsAllowed(key)
    ensures IsAllowed(r)
  {
    CharAt((IndexOf(c) - IndexOf(key)) % ALPHABET_SIZE)
  }

  lemma UnshiftShift(c: char, key: char)
    requires IsAllowed(c) && IsAllowed(key)
    ensures Unshift(Shift(c, key), key) == c
  {
    hide CharAt;
    var x, y := IndexOf(c), IndexOf(key);
    CharAtIndex((x + y) % ALPHABET_SIZE);
    ModuloUndone(x, y);
  }

  lemma ModuloUndone(x: nat, y: nat)
    requires x < 62 && y < 62
    ensures ((x + y) % 62 - y) % 62 == x
  {}

  function Masked(secret: Secret, mask: Secret): string {
    mask + seq(32, i requires 0 <= i < 32 => Shift(secret[i], mask[i]))
  }

  function Unmasked(token: string): (r: Option<Secret>) {
    if !IsCsrfCharset(token) then None
    else if |token| == 32 then Some(token)
    else if |token| == 64 then Some(seq(32, i requires 0 <= i < 32 => Unshift(token[32 + i], token[i])))
    else None
  }

  /** Letter by letter: the mask in the clear, then each letter of the secret moved on by the mask's. */
  lemma MaskedLetters(secret: Secret, mask: Secret, i: nat)
    requires i < 32
    ensures |Masked(secret, mask)| == 64 && Masked(secret, mask)[..32] == mask
    ensures var c := Masked(secret, mask)[32 + i];
            IsAllowed(c) && IndexOf(c) == (IndexOf(secret[i]) + IndexOf(mask[i])) % 62
  {
    hide CharAt, IndexOf;
    CharAtIndex((IndexOf(secret[i]) + IndexOf(mask[i])) % 62);
  }

  /** Letter by letter the other way; and a token is refused exactly for its length or for a letter outside
      the alphabet. */
  lemma UnmaskedLetters(token: string, i: nat)
    requires i < 32
    ensures Unmasked(token) == None <==> |token| !in {32, 64} || exists k :: 0 <= k < |token| && !IsAllowed(token[k])
    ensures |token| == 32 && Unmasked(token).Some? ==> Unmasked(token).value == token
    ensures |token| == 64 && Unmasked(token).Some? ==>
              (IndexOf(Unmasked(token).value[i]) + IndexOf(token[i])) % 62 == IndexOf(token[32 + i])
  {
    hide CharAt, IndexOf;
    if |token| == 64 && Unmasked(token).Some? {
      var x: int, y: int := IndexOf(token[32 + i]), IndexOf(token[i]);
      CharAtIndex((x - y) % 62);
      assert ((x - y) % 62 + y) % 62 == x;
    }
  }

  method MaskCsrfSecret(secret: Secret, mask: Secret) returns (token: string)
    ensures token == Masked(secret, mask)
    ensures token[..32] == mask
  {
    var cipher := "";
    var i := 0;
    while i < |secret|
      invariant 0 <= i <= 32 && |cipher| == i
      invariant forall k :: 0 <= k < i ==> cipher[k] == Shift(secret[k], mask[k])
    {
      cipher := cipher + [CharAt((IndexOf(secret[i]) + IndexOf(mask[i])) % ALPHABET_SIZE)];
      i := i + 1;
    }
    token := mask + cipher;
  }

  method UnmaskCsrfToken(token: string) returns (r: Option<Secret>)
    ensures r == Unmasked(token)
  {
    hide IndexOf, CharAt, TruncatedMod;
    if |token| == CSRF_SECRET_LENGTH {
      return if IsCsrfCharset(token) then Some(token) else None;
    }
    if |token| != CSRF_SECRET_LENGTH * 2 || !IsCsrfCharset(token) { return None; }
    var mask, cipher := token[..CSRF_SECRET_LENGTH], token[CSRF_SECRET_LENGTH..];
    var secret := "";
    var i := 0;
    while i < CSRF_SECRET_LENGTH
      invariant 0 <= i <= 32 && |secret| == i
      invariant forall k :: 0 <= k < i ==> secret[k] == Unshift(token[32 + k], token[k])
    {
      var x: int, y: int := IndexOf(cipher[i]), IndexOf(mask[i]);
      TruncatedIsEuclidean(x - y);
      secret := secret + [CharAt((TruncatedMod(x - y) + ALPHABET_SIZE) % ALPHABET_SIZE)];
      i := i + 1;
    }
    assert secret == Unmasked(token).value;
    return Some(secret);
  }

  /** JavaScript's `%`, which takes the sign of its left operand. */
  function TruncatedMod(n: int): int {
    if n >= 0 then n % ALPHABET_SIZE else -((-n) % ALPHABET_SIZE)
  }

  lemma TruncatedIsEuclidean(n: int)
    ensures (TruncatedMod(n) + ALPHABET_SIZE) % ALPHABET_SIZE == n % ALPHABET_SIZE
  {}

  /** Unmasking undoes masking, whatever the mask; the result has the masked token's form. */
  lemma UnmaskUndoesMask(secret: Secret, mask: Secret)
    ensures Unmasked(Masked(secret, mask)) == Some(secret)
    ensures |Masked(secret, mask)| == 64 && IsCsrfCharset(Masked(secret, mask))
  {
    var token := Masked(secret, mask);
    forall i | 0 <= i < 32
      ensures Unshift(token[32 + i], token[i]) == secret[i]
    {
      UnshiftShift(secret[i], mask[i]);
    }
    assert Unmasked(token).value == secret;
  }

  predicate TokensMatch(cookie: string, request: string) {
    Unmasked(cookie).Some? && Unmasked(cookie) == Unmasked(request)
  }

  /** `_sanitize_token`: a well-formed token is kept, the legacy 32-character form is masked, anything else
      is replaced. */
  function Sanitized(token: Option<string>, freshSecret: Secret, freshMask: Secret): string {
    if token.Some? && IsCsrfCharset(token.value) && |token.value| == 64 then token.value
    else if token.Some? && IsCsrfCharset(token.value) && |token.value| == 32 then Masked(token.value, freshMask)
    else Masked(freshSecret, freshMask)
  }

  // ---------------------------------------------------------------------
  // One browser
  // ---------------------------------------------------------------------

  /** The random inputs of one request. */
  datatype Draw = Draw(freshSecret: Secret, freshMask: Secret, fieldMask: Secret)

  predicate WellFormed(cookie: Option<string>) {
    cookie.Some? && Unmasked(cookie.value).Some?
  }

  function SecretOf(cookie: Option<string>): Secret
    requires WellFormed(cookie)
  {
    Unmasked(cookie.value).value
  }

  /** The cookie a form page sets. */
  function CookieAfterRender(cookie: Option<string>, d: Draw): Option<string> {
    Some(Sanitized(cookie, d.freshSecret, d.freshMask))
  }

  /** The field it renders: a new mask of the secret in that cookie. */
  function Field(cookie: Option<string>, d: Draw): string {
    var token := Sanitized(cookie, d.freshSecret, d.freshMask);
    match Unmasked(token)
    case Some(secret) => Masked(secret, d.fieldMask)
    case None => token
  }

  /** `rejectCsrf`, negated. */
  predicate Accepts(cookie: Option<string>, submitted: string, d: Draw) {
    cookie.Some? && TokensMatch(Sanitized(cookie, d.freshSecret, d.freshMask), submitted)
  }

  function CookieAfter(cookie: Option<string>, renders: seq<Draw>): Option<string> {
    if renders == [] then cookie else CookieAfterRender(CookieAfter(cookie, renders[..|renders| - 1]), renders[|renders| - 1])
  }

  lemma SanitizedKeepsSecret(cookie: Option<string>, d: Draw)
    ensures WellFormed(CookieAfterRender(cookie, d))
    ensures WellFormed(cookie) ==> SecretOf(CookieAfterRender(cookie, d)) == SecretOf(cookie)
    ensures !WellFormed(cookie) ==> SecretOf(CookieAfterRender(cookie, d)) == d.freshSecret
  {
    UnmaskUndoesMask(d.freshSecret, d.freshMask);
    if WellFormed(cookie) && |cookie.value| == 32 { UnmaskUndoesMask(cookie.value, d.freshMask); }
  }

  /** What one render sets and shows: a well-formed long cookie goes back as it came, the short form is sent
      masked, anything else is replaced; and the field is the cookie's secret under a mask of its own. */
  lemma RenderedTokens(cookie: Option<string>, d: Draw)
    ensures WellFormed(cookie) && |cookie.value| == 64 ==> CookieAfterRender(cookie, d) == cookie
    ensures !(WellFormed(cookie) && |cookie.value| == 64) ==> CookieAfterRender(cookie, d).value[..32] == d.freshMask
    ensures |Field(cookie, d)| == 64 && Field(cookie, d)[..32] == d.fieldMask
    ensures Unmasked(Field(cookie, d)) == Unmasked(CookieAfterRender(cookie, d).value)
  {
    hide Masked, Unmasked;
    UnmaskedLetters(if cookie.Some? then cookie.value else "", 0);
    SanitizedKeepsSecret(cookie, d);
    MaskedLetters(d.freshSecret, d.freshMask, 0);
    if WellFormed(cookie) && |cookie.value| == 32 { MaskedLetters(cookie.value, d.freshMask, 0); }
    var secret := SecretOf(CookieAfterRender(cookie, d));
    MaskedLetters(secret, d.fieldMask, 0);
    UnmaskUndoesMask(secret, d.fieldMask);
  }

  /** From the first well-formed cookie on, the secret never changes: the legacy unmasked form included. */
  lemma {:induction false} SecretIsConstant(cookie: Option<string>, renders: seq<Draw>)
    requires WellFormed(cookie)
    ensures WellFormed(CookieAfter(cookie, renders)) && SecretOf(CookieAfter(cookie, renders)) == SecretOf(cookie)
  {
    if renders != [] {
      SecretIsConstant(cookie, renders[..|renders| - 1]);
      SanitizedKeepsSecret(CookieAfter(cookie, renders[..|renders| - 1]), renders[|renders| - 1]);
    }
  }

  /** A post is accepted exactly when its token unmasks to the secret of the browser's cookie. */
  lemma AcceptedExactly(cookie: Option<string>, submitted: string, d: Draw)
    requires WellFormed(cookie)
    ensures Accepts(cookie, submitted, d) <==> Unmasked(submitted) == Some(SecretOf(cookie))
  {
    SanitizedKeepsSecret(cookie, d);
  }

  lemma {:induction false} CookieSplits(cookie: Option<string>, renders: seq<Draw>, i: nat)
    requires i <= |renders|
    ensures CookieAfter(cookie, renders) == CookieAfter(CookieAfter(cookie, renders[..i]), renders[i..])
  {
    hide CookieAfterRender;
    if i == |renders| {
      assert renders[..i] == renders && renders[i..] == [];
    } else {
      var n := |renders| - 1;
      CookieSplits(cookie, renders[..n], i);
      assert renders[..n][..i] == renders[..i] && renders[..n][i..] == renders[i..][..n - i];
    }
  }

  /** Every field a page ever issued still verifies after any later renders, whatever cookie the browser
      started with. */
  lemma FieldsKeepVerifying(cookie: Option<string>, renders: seq<Draw>, i: nat, post: Draw)
    requires i < |renders|
    ensures Accepts(CookieAfter(cookie, renders), Field(CookieAfter(cookie, renders[..i]), renders[i]), post)
  {
    var before := CookieAfter(cookie, renders[..i]);
    var after := CookieAfterRender(before, renders[i]);
    SanitizedKeepsSecret(before, renders[i]);
    assert renders[..i + 1][..i] == renders[..i];
    assert CookieAfter(cookie, renders[..i + 1]) == after;
    CookieSplits(cookie, renders, i + 1);
    SecretIsConstant(after, renders[i + 1..]);
    UnmaskUndoesMask(SecretOf(after), renders[i].fieldMask);
    AcceptedExactly(CookieAfter(cookie, renders), Field(before, renders[i]), post);
  }

  /** Without a cookie nothing is accepted. */
  lemma NoCookieNoPost(submitted: string, d: Draw, renders: seq<Draw>)
    ensures !Accepts(None, submitted, d)
    ensures renders != [] ==> WellFormed(CookieAfter(None, renders))
  {}
}
