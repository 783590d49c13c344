/** Invoices: their schema, their canonical JSON and their hash. */
module Invoices {
  import opened Texts
  import opened Radix
  import opened StableSort
  import opened Json
  import opened CanonicalText
  import opened Utf8
  import opened Resource

  /** The fields of an invoice that vary; version, scheme and network are fixed literals. */
  datatype Invoice = Invoice(
    resourceHash: Text, amountSats: Text, payTo: Text, nonce: Text, issuedAt: nat, expiresAt: nat)

  /** `^ecash:[qp][a-z0-9]{41,}$`. */
  predicate IsAddress(t: Text) {
    && |t| >= 48
    && t[..6] == Ascii("ecash:")
    && (t[6] == 113 || t[6] == 112)
    && forall i | 7 <= i < |t| :: IsDigit(t[i]) || 97 <= t[i] <= 122
  }

  predicate IsNonce(t: Text) { 22 <= |t| <= 128 && forall i | 0 <= i < |t| :: IsBase64Url(t[i]) }

  predicate ValidInvoice(i: Invoice) {
    && IsHash(i.resourceHash) && IsAmount(i.amountSats) && IsAddress(i.payTo) && IsNonce(i.nonce)
    && i.issuedAt <= MAX_SAFE_INTEGER && i.expiresAt <= MAX_SAFE_INTEGER
    && i.issuedAt < i.expiresAt
  }

  ghost predicate PlainDigits(t: Text) { forall i | 0 <= i < |t| :: Between(t[i], '0', '9') }

  ghost predicate HexDigits(t: Text) { forall i | 0 <= i < |t| :: Between(t[i], '0', '9') || Between(t[i], 'a', 'f') }

  ghost predicate AddressUnits(t: Text) {
    forall i | 0 <= i < |t| :: Between(t[i], '0', '9') || Between(t[i], 'a', 'z')
  }

  ghost predicate UrlUnits(t: Text) {
    forall i | 0 <= i < |t| ::
      || Between(t[i], 'A', 'Z') || Between(t[i], 'a', 'z') || Between(t[i], '0', '9') || Between(t[i], '-', '-')
      || Between(t[i], '_', '_')
  }

  lemma AmountSpelled(t: Text)
    ensures IsAmount(t) <==> |t| > 0 && !Between(t[0], '0', '0') && PlainDigits(t)
  {}

  lemma AddressSpelled(t: Text)
    ensures IsAddress(t) <==>
      && |t| >= 7 + 41 && t[..6] == Spell("ecash:") && (Between(t[6], 'q', 'q') || Between(t[6], 'p', 'p'))
      && AddressUnits(t[7..])
  {
    assert Spell("ecash:") == Ascii("ecash:");
    if |t| >= 48 {
      assert forall i | 7 <= i < |t| :: t[i] == t[7..][i - 7];
    }
  }

  lemma NonceSpelled(t: Text)
    ensures IsNonce(t) <==> 22 <= |t| <= 128 && UrlUnits(t)
  {}

  /** The strict invoice schema, written out. */
  lemma InvoiceSchema(i: Invoice)
    ensures ValidInvoice(i) <==>
      && |i.resourceHash| == 64 && HexDigits(i.resourceHash)
      && |i.amountSats| > 0 && !Between(i.amountSats[0], '0', '0') && PlainDigits(i.amountSats)
      && |i.payTo| >= 7 + 41 && i.payTo[..6] == Spell("ecash:")
      && (Between(i.payTo[6], 'q', 'q') || Between(i.payTo[6], 'p', 'p')) && AddressUnits(i.payTo[7..])
      && 22 <= |i.nonce| <= 128 && UrlUnits(i.nonce)
      && i.issuedAt < i.expiresAt <= 9007199254740991
  {
    HashSpelled(i.resourceHash);
    AmountSpelled(i.amountSats);
    AddressSpelled(i.payTo);
    NonceSpelled(i.nonce);
  }

  /** Schema-valid texts exist: the types of checked inputs are inhabited. */
  const A_HASH: Text := seq(64, _ => 48)
  const AN_ADDRESS: Text := Ascii("ecash:q") + seq(41, _ => 48)
  const A_NONCE: Text := seq(22, _ => 65)
  const AN_INVOICE: Invoice := Invoice(A_HASH, [49], AN_ADDRESS, A_NONCE, 0, 1)

  const VERSION_KEY := Ascii("x402Version")
  const SCHEME_KEY := Ascii("scheme")
  const NETWORK_KEY := Ascii("network")
  const RESOURCE_KEY := Ascii("resourceHash")
  const AMOUNT_KEY := Ascii("amountSats")
  const PAY_TO_KEY := Ascii("payTo")
  const NONCE_KEY := Ascii("nonce")
  const ISSUED_KEY := Ascii("issuedAt")
  const EXPIRES_KEY := Ascii("expiresAt")

  const EXACT := Ascii("exact")
  const MAINNET := Ascii("xec:mainnet")

  function Whole(n: nat): Json { Num(Finite(Decimal(n))) }

  function InvoiceFields(i: Invoice): seq<Pair<Json>> {
    [Pair(VERSION_KEY, Whole(1)), Pair(SCHEME_KEY, Str(EXACT)), Pair(NETWORK_KEY, Str(MAINNET)),
     Pair(RESOURCE_KEY, Str(i.resourceHash)), Pair(AMOUNT_KEY, Str(i.amountSats)),
     Pair(PAY_TO_KEY, Str(i.payTo)), Pair(NONCE_KEY, Str(i.nonce)),
     Pair(ISSUED_KEY, Whole(i.issuedAt)), Pair(EXPIRES_KEY, Whole(i.expiresAt))]
  }

  function InvoiceJson(i: Invoice): Json { Obj(InvoiceFields(i)) }

  function InvoiceHash(sha: HashFunction, i: Invoice): Text { CanonicalHash(sha, InvoiceJson(i)) }

  const INVOICE_KEYS: seq<Text> :=
    [VERSION_KEY, SCHEME_KEY, NETWORK_KEY, RESOURCE_KEY, AMOUNT_KEY, PAY_TO_KEY, NONCE_KEY, ISSUED_KEY, EXPIRES_KEY]

  /** Nine different keys: they differ in length or in one of their first three letters. */
  lemma InvoiceKeysDistinct()
    ensures forall m, n | 0 <= m < n < |INVOICE_KEYS| :: INVOICE_KEYS[m] != INVOICE_KEYS[n]
  {
    assert |VERSION_KEY| == 11 && |SCHEME_KEY| == 6 && |NETWORK_KEY| == 7 && |RESOURCE_KEY| == 12;
    assert |AMOUNT_KEY| == 10 && |PAY_TO_KEY| == 5 && |NONCE_KEY| == 5 && |ISSUED_KEY| == 8 && |EXPIRES_KEY| == 9;
    assert PAY_TO_KEY[0] == 112 && NONCE_KEY[0] == 110;
  }

  lemma InvoiceKeysUnique(i: Invoice)
    ensures UniqueKeys(InvoiceFields(i))
  {
    InvoiceKeysDistinct();
    var f := InvoiceFields(i);
    assert forall n | 0 <= n < 9 :: f[n].key == INVOICE_KEYS[n];
  }

  lemma WholeInjective(m: nat, n: nat)
    ensures Same(Whole(m), Whole(n)) <==> m == n
    ensures WellFormed(Whole(m))
  {
    DecimalRoundTrip(m);
    DecimalRoundTrip(n);
  }

  lemma InvoiceJsonWellFormed(i: Invoice)
    ensures WellFormed(InvoiceJson(i))
  {
    InvoiceKeysUnique(i);
    WholeInjective(1, 1);
    WholeInjective(i.issuedAt, i.issuedAt);
    WholeInjective(i.expiresAt, i.expiresAt);
  }

  lemma InvoiceFieldsSame(i: Invoice, j: Invoice)
    ensures SameFields(InvoiceFields(i), InvoiceFields(j)) <==> i == j
  {
    var f, g := InvoiceFields(i), InvoiceFields(j);
    WholeInjective(1, 1);
    WholeInjective(i.issuedAt, j.issuedAt);
    WholeInjective(i.expiresAt, j.expiresAt);
    if SameFields(f, g) {
      assert Same(f[3].value, g[3].value) && Same(f[4].value, g[4].value) && Same(f[5].value, g[5].value);
      assert Same(f[6].value, g[6].value) && Same(f[7].value, g[7].value) && Same(f[8].value, g[8].value);
    }
  }

  /** The JSON of an invoice determines the invoice. */
  lemma InvoiceJsonInjective(i: Invoice, j: Invoice)
    ensures Same(InvoiceJson(i), InvoiceJson(j)) <==> i == j
  {
    InvoiceKeysUnique(i);
    assert SameKeys(InvoiceFields(i), InvoiceFields(j));
    RecordSame(InvoiceFields(i), InvoiceFields(j));
    InvoiceFieldsSame(i, j);
  }

  /** Unless the hash collides, an invoice hash stands for one invoice: every field is bound. */
  lemma InvoiceHashBinds(sha: HashFunction, i: Invoice, j: Invoice)
    requires NoCollision(sha, CanonicalBytes(InvoiceJson(i)), CanonicalBytes(InvoiceJson(j)))
    ensures InvoiceHash(sha, i) == InvoiceHash(sha, j) <==> i == j
  {
    InvoiceJsonWellFormed(i);
    InvoiceJsonWellFormed(j);
    CanonicalHashBinds(sha, InvoiceJson(i), InvoiceJson(j));
    InvoiceJsonInjective(i, j);
  }
}
