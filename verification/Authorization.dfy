/** Payment authorizations: their canonical JSON, what their signature covers, and the checks
    that bind them to an invoice and a request. */
module Authorizations {
  import opened Texts
  import opened Radix
  import opened StableSort
  import opened Json
  import opened CanonicalText
  import opened Utf8
  import opened Resource
  import opened Invoices

  /** The fields that vary; version, scheme and network are fixed literals. */
  datatype Authorization = Authorization(
    invoiceHash: Text, resourceHash: Text, amountSats: Text, payTo: Text, nonce: Text, payer: Text,
    txid: Text, vout: nat, signature: Text)

  predicate ValidAuthorization(a: Authorization) {
    && IsHash(a.invoiceHash) && IsHash(a.resourceHash) && IsAmount(a.amountSats) && IsAddress(a.payTo)
    && IsNonce(a.nonce) && IsAddress(a.payer) && IsHash(a.txid) && a.vout <= MAX_SAFE_INTEGER
    && 1 <= |a.signature| <= 1024 && forall i | 0 <= i < |a.signature| :: IsBase64Url(a.signature[i])
  }

  /** The strict authorization schema, written out. */
  lemma AuthorizationSchema(a: Authorization)
    ensures ValidAuthorization(a) <==>
      && |a.invoiceHash| == |a.resourceHash| == |a.txid| == 64
      && HexDigits(a.invoiceHash) && HexDigits(a.resourceHash) && HexDigits(a.txid)
      && |a.amountSats| > 0 && !Between(a.amountSats[0], '0', '0') && PlainDigits(a.amountSats)
      && |a.payTo| >= 7 + 41 && a.payTo[..6] == Spell("ecash:")
      && (Between(a.payTo[6], 'q', 'q') || Between(a.payTo[6], 'p', 'p')) && AddressUnits(a.payTo[7..])
      && |a.payer| >= 7 + 41 && a.payer[..6] == Spell("ecash:")
      && (Between(a.payer[6], 'q', 'q') || Between(a.payer[6], 'p', 'p')) && AddressUnits(a.payer[7..])
      && 22 <= |a.nonce| <= 128 && UrlUnits(a.nonce)
      && a.vout <= 9007199254740991
      && 1 <= |a.signature| <= 1024 && UrlUnits(a.signature)
  {
    HashSpelled(a.invoiceHash);
    HashSpelled(a.resourceHash);
    HashSpelled(a.txid);
    AmountSpelled(a.amountSats);
    AddressSpelled(a.payTo);
    AddressSpelled(a.payer);
    NonceSpelled(a.nonce);
  }

  const INVOICE_HASH_KEY := Ascii("invoiceHash")
  const PAYER_KEY := Ascii("payer")
  const TRANSACTION_KEY := Ascii("transaction")
  const SIGNATURE_KEY := Ascii("signature")
  const TXID_KEY := Ascii("txid")
  const VOUT_KEY := Ascii("vout")

  function TransactionFields(txid: Text, vout: nat): seq<Pair<Json>> {
    [Pair(TXID_KEY, Str(txid)), Pair(VOUT_KEY, Whole(vout))]
  }

  function UnsignedFields(a: Authorization): seq<Pair<Json>> {
    [Pair(VERSION_KEY, Whole(1)), Pair(SCHEME_KEY, Str(EXACT)), Pair(NETWORK_KEY, Str(MAINNET)),
     Pair(INVOICE_HASH_KEY, Str(a.invoiceHash)), Pair(RESOURCE_KEY, Str(a.resourceHash)),
     Pair(AMOUNT_KEY, Str(a.amountSats)), Pair(PAY_TO_KEY, Str(a.payTo)), Pair(NONCE_KEY, Str(a.nonce)),
     Pair(PAYER_KEY, Str(a.payer)), Pair(TRANSACTION_KEY, Obj(TransactionFields(a.txid, a.vout)))]
  }

  function SignedFields(a: Authorization): seq<Pair<Json>> {
    UnsignedFields(a) + [Pair(SIGNATURE_KEY, Str(a.signature))]
  }

  function SigningMessage(a: Authorization): Text { Canonicalize(Obj(UnsignedFields(a))) }

  function AuthorizationDigest(sha: HashFunction, a: Authorization): Text { CanonicalHash(sha, Obj(SignedFields(a))) }

  const AUTHORIZATION_KEYS: seq<Text> :=
    [VERSION_KEY, SCHEME_KEY, NETWORK_KEY, INVOICE_HASH_KEY, RESOURCE_KEY, AMOUNT_KEY, PAY_TO_KEY, NONCE_KEY,
     PAYER_KEY, TRANSACTION_KEY, SIGNATURE_KEY]

  /** Eleven different keys: they differ in length or in one of their first four letters. */
  lemma AuthorizationKeysDistinct()
    ensures forall m, n | 0 <= m < n < |AUTHORIZATION_KEYS| :: AUTHORIZATION_KEYS[m] != AUTHORIZATION_KEYS[n]
  {
    assert |VERSION_KEY| == 11 && |SCHEME_KEY| == 6 && |NETWORK_KEY| == 7 && |RESOURCE_KEY| == 12;
    assert |AMOUNT_KEY| == 10 && |PAY_TO_KEY| == 5 && |NONCE_KEY| == 5 && |PAYER_KEY| == 5;
    assert |INVOICE_HASH_KEY| == 11 && |TRANSACTION_KEY| == 11 && |SIGNATURE_KEY| == 9;
    assert VERSION_KEY[0] == 120 && INVOICE_HASH_KEY[0] == 105 && TRANSACTION_KEY[0] == 116;
    assert PAY_TO_KEY[0] == 112 && NONCE_KEY[0] == 110 && PAYER_KEY[0] == 112;
    assert PAY_TO_KEY[3] == 84 && PAYER_KEY[3] == 101;
  }

  lemma AuthorizationKeysUnique(a: Authorization)
    ensures UniqueKeys(UnsignedFields(a)) && UniqueKeys(SignedFields(a))
  {
    AuthorizationKeysDistinct();
    var f := SignedFields(a);
    assert forall n | 0 <= n < 11 :: f[n].key == AUTHORIZATION_KEYS[n];
    var g := UnsignedFields(a);
    assert forall n | 0 <= n < 10 :: g[n].key == AUTHORIZATION_KEYS[n];
  }

  lemma TransactionSame(s: Text, m: nat, t: Text, n: nat)
    ensures WellFormed(Obj(TransactionFields(s, m)))
    ensures Same(Obj(TransactionFields(s, m)), Obj(TransactionFields(t, n))) <==> s == t && m == n
  {
    var f, g := TransactionFields(s, m), TransactionFields(t, n);
    assert TXID_KEY[0] == 116 && VOUT_KEY[0] == 118;
    RecordSame(f, g);
    WholeInjective(m, m);
    WholeInjective(m, n);
    if SameFields(f, g) {
      assert Same(f[0].value, g[0].value) && Same(f[1].value, g[1].value);
    }
  }

  lemma AuthorizationWellFormed(a: Authorization)
    ensures WellFormed(Obj(UnsignedFields(a))) && WellFormed(Obj(SignedFields(a)))
  {
    AuthorizationKeysUnique(a);
    WholeInjective(1, 1);
    TransactionSame(a.txid, a.vout, a.txid, a.vout);
  }

  predicate SameUnsigned(a: Authorization, b: Authorization) { b.(signature := a.signature) == a }

  lemma UnsignedFieldsSame(a: Authorization, b: Authorization)
    ensures SameFields(UnsignedFields(a), UnsignedFields(b)) <==> SameUnsigned(a, b)
  {
    var f, g := UnsignedFields(a), UnsignedFields(b);
    WholeInjective(1, 1);
    TransactionSame(a.txid, a.vout, b.txid, b.vout);
    if SameFields(f, g) {
      assert Same(f[3].value, g[3].value) && Same(f[4].value, g[4].value) && Same(f[5].value, g[5].value);
      assert Same(f[6].value, g[6].value) && Same(f[7].value, g[7].value) && Same(f[8].value, g[8].value);
      assert Same(f[9].value, g[9].value);
    }
  }

  lemma SignedFieldsSame(a: Authorization, b: Authorization)
    ensures SameFields(SignedFields(a), SignedFields(b)) <==> a == b
  {
    var f, g := SignedFields(a), SignedFields(b);
    var f', g' := UnsignedFields(a), UnsignedFields(b);
    UnsignedFieldsSame(a, b);
    assert f[10].value == Str(a.signature) && g[10].value == Str(b.signature);
    assert forall i | 0 <= i < 10 :: f[i] == f'[i] && g[i] == g'[i];
    if SameFields(f, g) {
      assert Same(f[10].value, g[10].value);
      assert SameFields(f', g');
    } else if a == b {
      assert SameFields(f', g');
    }
  }

  lemma RecordText(f: seq<Pair<Json>>, g: seq<Pair<Json>>)
    requires WellFormed(Obj(f)) && WellFormed(Obj(g)) && SameKeys(f, g) && UniqueKeys(f)
    ensures Canonicalize(Obj(f)) == Canonicalize(Obj(g)) <==> SameFields(f, g)
  {
    UniquelyDecodable(Obj(f), Obj(g));
    RecordSame(f, g);
  }

  /** The signed message is the same text for two authorizations exactly when they agree on
      everything but the signature: a signature cannot be moved to another payment. */
  lemma SigningMessageBinds(a: Authorization, b: Authorization)
    ensures SigningMessage(a) == SigningMessage(b) <==> SameUnsigned(a, b)
  {
    AuthorizationWellFormed(a);
    AuthorizationWellFormed(b);
    AuthorizationKeysUnique(a);
    RecordText(UnsignedFields(a), UnsignedFields(b));
    UnsignedFieldsSame(a, b);
  }

  lemma AuthorizationDigestBinds(sha: HashFunction, a: Authorization, b: Authorization)
    requires NoCollision(sha, CanonicalBytes(Obj(SignedFields(a))), CanonicalBytes(Obj(SignedFields(b))))
    ensures AuthorizationDigest(sha, a) == AuthorizationDigest(sha, b) <==> a == b
  {
    AuthorizationWellFormed(a);
    AuthorizationWellFormed(b);
    CanonicalHashBinds(sha, Obj(SignedFields(a)), Obj(SignedFields(b)));
    AuthorizationKeysUnique(a);
    RecordSame(SignedFields(a), SignedFields(b));
    SignedFieldsSame(a, b);
  }

  // ---------- The request digest of the facilitator ----------

  const DIGEST_KEY := Ascii("authorizationDigest")
  const INVOICE_ID_KEY := Ascii("invoiceId")

  function DigestFields(digest: Text, invoiceId: Text, resourceHash: Text): seq<Pair<Json>> {
    [Pair(DIGEST_KEY, Str(digest)), Pair(INVOICE_ID_KEY, Str(invoiceId)), Pair(RESOURCE_KEY, Str(resourceHash))]
  }

  function RequestDigest(sha: HashFunction, a: Authorization, i: Invoice, resourceHash: Text): Text {
    CanonicalHash(sha, Obj(DigestFields(AuthorizationDigest(sha, a), InvoiceHash(sha, i), resourceHash)))
  }

  lemma DigestKeysUnique(d: Text, i: Text, r: Text)
    ensures UniqueKeys(DigestFields(d, i, r))
  {
    assert |DIGEST_KEY| == 19 && |INVOICE_ID_KEY| == 9 && |RESOURCE_KEY| == 12;
  }

  lemma DigestFieldsSame(d: Text, i: Text, r: Text, d': Text, i': Text, r': Text)
    ensures WellFormed(Obj(DigestFields(d, i, r)))
    ensures Same(Obj(DigestFields(d, i, r)), Obj(DigestFields(d', i', r'))) <==> d == d' && i == i' && r == r'
  {
    var f, g := DigestFields(d, i, r), DigestFields(d', i', r');
    DigestKeysUnique(d, i, r);
    RecordSame(f, g);
    if SameFields(f, g) {
      assert Same(f[0].value, g[0].value) && Same(f[1].value, g[1].value) && Same(f[2].value, g[2].value);
    }
  }

  /** None of the three hashes in a request digest collides. */
  ghost predicate NoDigestCollision(sha: HashFunction, a: Authorization, i: Invoice, r: Text, b: Authorization,
      j: Invoice, t: Text) {
    && NoCollision(sha, CanonicalBytes(Obj(SignedFields(a))), CanonicalBytes(Obj(SignedFields(b))))
    && NoCollision(sha, CanonicalBytes(InvoiceJson(i)), CanonicalBytes(InvoiceJson(j)))
    && NoCollision(sha,
         CanonicalBytes(Obj(DigestFields(AuthorizationDigest(sha, a), InvoiceHash(sha, i), r))),
         CanonicalBytes(Obj(DigestFields(AuthorizationDigest(sha, b), InvoiceHash(sha, j), t))))
  }

  /** The digest that idempotency compares stands for the whole request. */
  lemma RequestDigestBinds(sha: HashFunction, a: Authorization, i: Invoice, r: Text, b: Authorization,
      j: Invoice, t: Text)
    requires NoDigestCollision(sha, a, i, r, b, j, t)
    ensures RequestDigest(sha, a, i, r) == RequestDigest(sha, b, j, t) <==> a == b && i == j && r == t
  {
    AuthorizationDigestBinds(sha, a, b);
    InvoiceHashBinds(sha, i, j);
    var d, d' := AuthorizationDigest(sha, a), AuthorizationDigest(sha, b);
    DigestFieldsSame(d, InvoiceHash(sha, i), r, d', InvoiceHash(sha, j), t);
    DigestFieldsSame(d', InvoiceHash(sha, j), t, d, InvoiceHash(sha, i), r);
    CanonicalHashBinds(sha, Obj(DigestFields(d, InvoiceHash(sha, i), r)),
                       Obj(DigestFields(d', InvoiceHash(sha, j), t)));
  }

  // ---------- verifyAuthorization ----------

  datatype AuthorizationCode =
    | Malformed | NotYetValid | Expired | ResourceMismatch | AmountMismatch | PayToMismatch | NonceMismatch
    | InvoiceMismatch | InvalidSignature | NonceReused

  /** The refusals that precede the signature check, in the order of the source. */
  function CheckBinding(sha: HashFunction, i: Invoice, a: Authorization, r: Request,
      now: int): Option<AuthorizationCode>
    requires IsAmount(i.amountSats) && IsAmount(a.amountSats)
  {
    if !(0 <= now <= MAX_SAFE_INTEGER) then Some(Malformed)
    else if now < i.issuedAt then Some(NotYetValid)
    else if now >= i.expiresAt then Some(Expired)
    else match ResourceHash(sha, r)
      case None => Some(Malformed)
      case Some(hash) =>
        if hash != i.resourceHash || a.resourceHash != i.resourceHash then Some(ResourceMismatch)
        else if DecimalValue(a.amountSats) != DecimalValue(i.amountSats) then Some(AmountMismatch)
        else if a.payTo != i.payTo then Some(PayToMismatch)
        else if a.nonce != i.nonce then Some(NonceMismatch)
        else if a.invoiceHash != InvoiceHash(sha, i) then Some(InvoiceMismatch)
        else None
  }

  /** The authorization repeats every term of the invoice that it can repeat. */
  predicate Bound(sha: HashFunction, i: Invoice, a: Authorization, r: Request) {
    && ResourceHash(sha, r) == Some(i.resourceHash) && a.resourceHash == i.resourceHash
    && a.amountSats == i.amountSats && a.payTo == i.payTo && a.nonce == i.nonce
    && a.invoiceHash == InvoiceHash(sha, i)
  }

  /** The checks pass exactly in the time window and for a bound authorization; comparing the
      amounts as numbers is comparing their texts. */
  lemma CheckBindingExact(sha: HashFunction, i: Invoice, a: Authorization, r: Request, now: int)
    requires ValidInvoice(i) && ValidAuthorization(a)
    ensures CheckBinding(sha, i, a, r, now).None? <==> i.issuedAt <= now < i.expiresAt && Bound(sha, i, a, r)
  {
    AmountIsDecimal(i.amountSats);
    AmountIsDecimal(a.amountSats);
  }

  /** Two invoices that one signed message authorizes have one hash, and are one invoice unless
      the hash collides. */
  lemma OneInvoicePerMessage(sha: HashFunction, i: Invoice, a: Authorization, r: Request, j: Invoice,
      b: Authorization, s: Request)
    requires Bound(sha, i, a, r) && Bound(sha, j, b, s)
    requires NoCollision(sha, CanonicalBytes(InvoiceJson(i)), CanonicalBytes(InvoiceJson(j)))
    requires SigningMessage(a) == SigningMessage(b)
    ensures i == j
  {
    SigningMessageBinds(a, b);
    InvoiceHashBinds(sha, i, j);
  }
}
