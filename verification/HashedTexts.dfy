/** The very texts under the hashes, the signature and the header, character by character. */
module HashedTexts {
  import opened Texts
  import opened Radix
  import opened StableSort
  import opened Json
  import opened CanonicalText
  import opened CanonicalForm
  import opened Utf8
  import opened Resource
  import opened Invoices
  import opened Authorizations
  import opened Offers
  import Base64

  lemma DecimalOne()
    ensures Decimal(1) == Spell("1")
  {
    DivMod(0, 10, 1);
    assert Digits(0, 10) == [];
    assert Digits(1, 10) == [1];
  }

  // ---------- The names ----------

  lemma InvoiceNames()
    ensures AMOUNT_KEY == Spell("amountSats") && Plain("amountSats")
    ensures EXPIRES_KEY == Spell("expiresAt") && Plain("expiresAt")
    ensures ISSUED_KEY == Spell("issuedAt") && Plain("issuedAt")
  {}

  lemma CommonNames()
    ensures NETWORK_KEY == Spell("network") && Plain("network")
    ensures NONCE_KEY == Spell("nonce") && Plain("nonce")
    ensures PAY_TO_KEY == Spell("payTo") && Plain("payTo")
  {}

  lemma SchemeNames()
    ensures RESOURCE_KEY == Spell("resourceHash") && Plain("resourceHash")
    ensures SCHEME_KEY == Spell("scheme") && Plain("scheme")
    ensures VERSION_KEY == Spell("x402Version") && Plain("x402Version")
  {}

  lemma PayerNames()
    ensures INVOICE_HASH_KEY == Spell("invoiceHash") && Plain("invoiceHash")
    ensures PAYER_KEY == Spell("payer") && Plain("payer")
    ensures SIGNATURE_KEY == Spell("signature") && Plain("signature")
  {}

  lemma TransactionNames()
    ensures TRANSACTION_KEY == Spell("transaction") && Plain("transaction")
    ensures TXID_KEY == Spell("txid") && Plain("txid")
    ensures VOUT_KEY == Spell("vout") && Plain("vout")
  {}

  lemma LiteralNames()
    ensures Quote(MAINNET) == Quoted("xec:mainnet") && Quote(EXACT) == Quoted("exact")
  {
    assert MAINNET == Spell("xec:mainnet") && EXACT == Spell("exact");
    QuotePlain("xec:mainnet");
    QuotePlain("exact");
  }

  // ---------- Invoices ----------

  lemma InvoiceKeysClimb()
    ensures Less(AMOUNT_KEY, EXPIRES_KEY) && Less(EXPIRES_KEY, ISSUED_KEY) && Less(ISSUED_KEY, NETWORK_KEY)
    ensures Less(NETWORK_KEY, NONCE_KEY) && Less(NONCE_KEY, PAY_TO_KEY) && Less(PAY_TO_KEY, RESOURCE_KEY)
    ensures Less(RESOURCE_KEY, SCHEME_KEY) && Less(SCHEME_KEY, VERSION_KEY)
  {
    assert NETWORK_KEY[0] == 110 && NONCE_KEY[0] == 110;
    assert NETWORK_KEY[1..][0] == 101 && NONCE_KEY[1..][0] == 111;
  }

  function SortedInvoice(i: Invoice): seq<Pair<Json>> {
    [Pair(AMOUNT_KEY, Str(i.amountSats)), Pair(EXPIRES_KEY, Whole(i.expiresAt)), Pair(ISSUED_KEY, Whole(i.issuedAt)),
     Pair(NETWORK_KEY, Str(MAINNET)), Pair(NONCE_KEY, Str(i.nonce)), Pair(PAY_TO_KEY, Str(i.payTo)),
     Pair(RESOURCE_KEY, Str(i.resourceHash)), Pair(SCHEME_KEY, Str(EXACT)), Pair(VERSION_KEY, Whole(1))]
  }

  lemma InvoiceArranged(i: Invoice)
    ensures Contained(InvoiceFields(i), SortedInvoice(i)) && Contained(SortedInvoice(i), InvoiceFields(i))
  {
    var f, g := InvoiceFields(i), SortedInvoice(i);
    assert f == [g[8], g[7], g[3], g[6], g[0], g[5], g[4], g[2], g[1]];
  }

  /** The entries of the text of an invoice. */
  function InvoiceEntries(i: Invoice): seq<(string, Text)> {
    [("amountSats", Quote(i.amountSats)), ("expiresAt", Decimal(i.expiresAt)), ("issuedAt", Decimal(i.issuedAt)),
     ("network", Quoted("xec:mainnet")), ("nonce", Quote(i.nonce)), ("payTo", Quote(i.payTo)),
     ("resourceHash", Quote(i.resourceHash)), ("scheme", Quoted("exact")), ("x402Version", Spell("1"))]
  }

  lemma InvoiceClimbs(i: Invoice)
    ensures Climbs(SortedInvoice(i))
  {
    InvoiceKeysClimb();
  }

  lemma InvoicePrintsFirst(i: Invoice)
    ensures var g, e := SortedInvoice(i), InvoiceEntries(i);
      Prints(g[0], e[0]) && Prints(g[1], e[1]) && Prints(g[2], e[2])
  {
    InvoiceNames();
  }

  lemma InvoicePrintsNext(i: Invoice)
    ensures var g, e := SortedInvoice(i), InvoiceEntries(i); Prints(g[4], e[4]) && Prints(g[5], e[5])
  {
    CommonNames();
  }

  lemma InvoicePrintsNetwork(i: Invoice)
    ensures Prints(SortedInvoice(i)[3], InvoiceEntries(i)[3])
  {
    CommonNames();
    LiteralNames();
  }

  lemma InvoicePrintsLast(i: Invoice)
    ensures var g, e := SortedInvoice(i), InvoiceEntries(i);
      Prints(g[6], e[6]) && Prints(g[7], e[7]) && Prints(g[8], e[8])
  {
    SchemeNames();
    LiteralNames();
    DecimalOne();
  }

  lemma InvoicePrints(i: Invoice)
    ensures AllPrint(SortedInvoice(i), InvoiceEntries(i))
  {
    InvoicePrintsFirst(i);
    InvoicePrintsNext(i);
    InvoicePrintsNetwork(i);
    InvoicePrintsLast(i);
    NinePrint(SortedInvoice(i), InvoiceEntries(i));
  }

  lemma NinePrint(g: seq<Pair<Json>>, e: seq<(string, Text)>)
    requires |g| == |e| == 9 && Prints(g[0], e[0]) && Prints(g[1], e[1]) && Prints(g[2], e[2]) && Prints(g[3], e[3])
    requires Prints(g[4], e[4]) && Prints(g[5], e[5]) && Prints(g[6], e[6]) && Prints(g[7], e[7])
    requires Prints(g[8], e[8])
    ensures AllPrint(g, e)
  {}

  /** An invoice hash is taken of the record with these entries. */
  lemma InvoiceSpelled(sha: HashFunction, i: Invoice)
    ensures Canonicalize(InvoiceJson(i)) == Record(InvoiceEntries(i))
    ensures InvoiceHash(sha, i) == sha(Encode(Record(InvoiceEntries(i))))
  {
    InvoiceKeysUnique(i);
    InvoiceClimbs(i);
    InvoiceArranged(i);
    InvoicePrints(i);
    RecordPrinted(InvoiceFields(i), SortedInvoice(i), InvoiceEntries(i));
  }

  // ---------- Authorizations ----------

  lemma TransactionPrinted(txid: Text, vout: nat)
    ensures Canonicalize(Obj(TransactionFields(txid, vout))) == Record([("txid", Quote(txid)), ("vout", Decimal(vout))])
  {
    TransactionNames();
    var f, e := TransactionFields(txid, vout), [("txid", Quote(txid)), ("vout", Decimal(vout))];
    assert TXID_KEY[0] == 116 && VOUT_KEY[0] == 118;
    assert Climbs(f) && Contained(f, f) && AllPrint(f, e);
    RecordPrinted(f, f, e);
  }

  function SortedUnsigned(a: Authorization): seq<Pair<Json>> {
    [Pair(AMOUNT_KEY, Str(a.amountSats)), Pair(INVOICE_HASH_KEY, Str(a.invoiceHash)), Pair(NETWORK_KEY, Str(MAINNET)),
     Pair(NONCE_KEY, Str(a.nonce)), Pair(PAY_TO_KEY, Str(a.payTo)), Pair(PAYER_KEY, Str(a.payer)),
     Pair(RESOURCE_KEY, Str(a.resourceHash)), Pair(SCHEME_KEY, Str(EXACT)),
     Pair(TRANSACTION_KEY, Obj(TransactionFields(a.txid, a.vout))), Pair(VERSION_KEY, Whole(1))]
  }

  function SortedSigned(a: Authorization): seq<Pair<Json>> {
    SortedUnsigned(a)[..8] + [Pair(SIGNATURE_KEY, Str(a.signature))] + SortedUnsigned(a)[8..]
  }

  lemma UnsignedArranged(a: Authorization)
    ensures Contained(UnsignedFields(a), SortedUnsigned(a)) && Contained(SortedUnsigned(a), UnsignedFields(a))
  {
    var f, g := UnsignedFields(a), SortedUnsigned(a);
    assert f == [g[9], g[7], g[2], g[1], g[6], g[0], g[4], g[3], g[5], g[8]];
  }

  lemma SignedArranged(a: Authorization)
    ensures Contained(SignedFields(a), SortedSigned(a)) && Contained(SortedSigned(a), SignedFields(a))
  {
    var f, g, p := UnsignedFields(a), SortedUnsigned(a), Pair(SIGNATURE_KEY, Str(a.signature));
    UnsignedArranged(a);
    assert g == g[..8] + g[8..];
    Inserted(f, g[..8], g[8..], p);
  }

  lemma Inserted(f: seq<Pair<Json>>, g: seq<Pair<Json>>, h: seq<Pair<Json>>, p: Pair<Json>)
    requires Contained(f, g + h) && Contained(g + h, f)
    ensures Contained(f + [p], g + [p] + h) && Contained(g + [p] + h, f + [p])
  {
    forall i | 0 <= i < |f + [p]| ensures (f + [p])[i] in g + [p] + h {
      if i < |f| {
        assert f[i] in g + h;
      }
    }
    forall j | 0 <= j < |g + [p] + h| ensures (g + [p] + h)[j] in f + [p] {
      if j < |g| {
        assert (g + h)[j] in f;
      } else if j > |g| {
        assert (g + h)[j - 1] in f;
      }
    }
  }

  lemma AuthorizationKeysClimb()
    ensures Less(AMOUNT_KEY, INVOICE_HASH_KEY) && Less(INVOICE_HASH_KEY, NETWORK_KEY) && Less(NETWORK_KEY, NONCE_KEY)
    ensures Less(NONCE_KEY, PAY_TO_KEY) && Less(PAY_TO_KEY, PAYER_KEY) && Less(PAYER_KEY, RESOURCE_KEY)
    ensures Less(RESOURCE_KEY, SCHEME_KEY) && Less(TRANSACTION_KEY, VERSION_KEY)
  {
    InvoiceKeysClimb();
    PayKeysClimb();
  }

  lemma PayKeysClimb()
    ensures Less(PAY_TO_KEY, PAYER_KEY)
  {
    assert PAY_TO_KEY == [112, 97, 121, 84, 111] && PAYER_KEY == [112, 97, 121, 101, 114];
    assert PAY_TO_KEY[..3] == PAYER_KEY[..3];
    LessAt(PAY_TO_KEY, PAYER_KEY, 3);
  }

  lemma SignatureKeyClimbs()
    ensures Less(SCHEME_KEY, SIGNATURE_KEY) && Less(SIGNATURE_KEY, TRANSACTION_KEY) && Less(SCHEME_KEY, TRANSACTION_KEY)
  {
    assert SCHEME_KEY[0] == 115 && SIGNATURE_KEY[0] == 115 && TRANSACTION_KEY[0] == 116;
    assert SCHEME_KEY[1..][0] == 99 && SIGNATURE_KEY[1..][0] == 105;
  }

  lemma UnsignedClimbs(a: Authorization)
    ensures Climbs(SortedUnsigned(a)) && Climbs(SortedSigned(a))
  {
    AuthorizationKeysClimb();
    SignatureKeyClimbs();
  }

  /** The entries of the signed text. */
  function UnsignedEntries(a: Authorization): seq<(string, Text)> {
    [("amountSats", Quote(a.amountSats)), ("invoiceHash", Quote(a.invoiceHash)), ("network", Quoted("xec:mainnet")),
     ("nonce", Quote(a.nonce)), ("payTo", Quote(a.payTo)), ("payer", Quote(a.payer)),
     ("resourceHash", Quote(a.resourceHash)), ("scheme", Quoted("exact")),
     ("transaction", Record([("txid", Quote(a.txid)), ("vout", Decimal(a.vout))])), ("x402Version", Spell("1"))]
  }

  /** With the signature among them. */
  function SignedEntries(a: Authorization): seq<(string, Text)> {
    [("amountSats", Quote(a.amountSats)), ("invoiceHash", Quote(a.invoiceHash)), ("network", Quoted("xec:mainnet")),
     ("nonce", Quote(a.nonce)), ("payTo", Quote(a.payTo)), ("payer", Quote(a.payer)),
     ("resourceHash", Quote(a.resourceHash)), ("scheme", Quoted("exact")), ("signature", Quote(a.signature)),
     ("transaction", Record([("txid", Quote(a.txid)), ("vout", Decimal(a.vout))])), ("x402Version", Spell("1"))]
  }

  lemma UnsignedPrintsFirst(a: Authorization)
    ensures var g, e := SortedUnsigned(a), UnsignedEntries(a);
      Prints(g[0], e[0]) && Prints(g[1], e[1]) && Prints(g[5], e[5])
  {
    InvoiceNames();
    PayerNames();
  }

  lemma UnsignedPrintsNext(a: Authorization)
    ensures var g, e := SortedUnsigned(a), UnsignedEntries(a); Prints(g[3], e[3]) && Prints(g[4], e[4])
  {
    CommonNames();
  }

  lemma UnsignedPrintsNetwork(a: Authorization)
    ensures Prints(SortedUnsigned(a)[2], UnsignedEntries(a)[2])
  {
    CommonNames();
    LiteralNames();
  }

  lemma UnsignedPrintsLast(a: Authorization)
    ensures var g, e := SortedUnsigned(a), UnsignedEntries(a);
      Prints(g[6], e[6]) && Prints(g[7], e[7]) && Prints(g[9], e[9])
  {
    SchemeNames();
    LiteralNames();
    DecimalOne();
  }

  lemma UnsignedPrintsTransaction(a: Authorization)
    ensures Prints(SortedUnsigned(a)[8], UnsignedEntries(a)[8])
  {
    TransactionNames();
    TransactionPrinted(a.txid, a.vout);
  }

  lemma UnsignedPrints(a: Authorization)
    ensures AllPrint(SortedUnsigned(a), UnsignedEntries(a))
  {
    UnsignedPrintsFirst(a);
    UnsignedPrintsNext(a);
    UnsignedPrintsNetwork(a);
    UnsignedPrintsLast(a);
    UnsignedPrintsTransaction(a);
    TenPrint(SortedUnsigned(a), UnsignedEntries(a));
  }

  lemma TenPrint(g: seq<Pair<Json>>, e: seq<(string, Text)>)
    requires |g| == |e| == 10 && Prints(g[0], e[0]) && Prints(g[1], e[1]) && Prints(g[2], e[2]) && Prints(g[3], e[3])
    requires Prints(g[4], e[4]) && Prints(g[5], e[5]) && Prints(g[6], e[6]) && Prints(g[7], e[7])
    requires Prints(g[8], e[8]) && Prints(g[9], e[9])
    ensures AllPrint(g, e)
  {}

  lemma SignedPrints(a: Authorization)
    ensures AllPrint(SortedSigned(a), SignedEntries(a))
  {
    UnsignedPrints(a);
    PayerNames();
    var g, e := SortedUnsigned(a), UnsignedEntries(a);
    assert SignedEntries(a) == e[..8] + [("signature", Quote(a.signature))] + e[8..];
    PrintsInserted(g, e, 8, Pair(SIGNATURE_KEY, Str(a.signature)), ("signature", Quote(a.signature)));
  }

  lemma PrintsInserted(g: seq<Pair<Json>>, e: seq<(string, Text)>, n: nat, p: Pair<Json>, q: (string, Text))
    requires AllPrint(g, e) && n <= |g| && Prints(p, q)
    ensures AllPrint(g[..n] + [p] + g[n..], e[..n] + [q] + e[n..])
  {
    var g', e' := g[..n] + [p] + g[n..], e[..n] + [q] + e[n..];
    forall k | 0 <= k < |g'| ensures Prints(g'[k], e'[k]) {
      if k < n {
        assert Prints(g[k], e[k]);
      } else if k > n {
        assert Prints(g[k - 1], e[k - 1]);
      }
    }
  }

  /** The signed text, and what the authorization digest is taken of. */
  lemma AuthorizationSpelled(sha: HashFunction, a: Authorization)
    ensures SigningMessage(a) == Record(UnsignedEntries(a))
    ensures AuthorizationDigest(sha, a) == sha(Encode(Record(SignedEntries(a))))
  {
    AuthorizationKeysUnique(a);
    UnsignedClimbs(a);
    UnsignedArranged(a);
    SignedArranged(a);
    UnsignedPrints(a);
    SignedPrints(a);
    RecordPrinted(UnsignedFields(a), SortedUnsigned(a), UnsignedEntries(a));
    RecordPrinted(SignedFields(a), SortedSigned(a), SignedEntries(a));
  }

  lemma DigestName()
    ensures DIGEST_KEY == Spell("authorizationDigest") && Plain("authorizationDigest")
  {}

  lemma InvoiceIdName()
    ensures INVOICE_ID_KEY == Spell("invoiceId") && Plain("invoiceId")
  {}

  /** The digest that idempotency compares is taken of three hashes. */
  lemma RequestDigestSpelled(sha: HashFunction, a: Authorization, i: Invoice, resourceHash: Text)
    ensures RequestDigest(sha, a, i, resourceHash) == sha(Encode(Record([
      ("authorizationDigest", Quote(sha(Encode(Record(SignedEntries(a)))))),
      ("invoiceId", Quote(sha(Encode(Record(InvoiceEntries(i)))))), ("resourceHash", Quote(resourceHash))])))
  {
    AuthorizationSpelled(sha, a);
    InvoiceSpelled(sha, i);
    DigestPrinted(AuthorizationDigest(sha, a), InvoiceHash(sha, i), resourceHash);
  }

  lemma DigestPrinted(d: Text, i: Text, r: Text)
    ensures Canonicalize(Obj(DigestFields(d, i, r))) ==
      Record([("authorizationDigest", Quote(d)), ("invoiceId", Quote(i)), ("resourceHash", Quote(r))])
  {
    DigestName();
    InvoiceIdName();
    SchemeNames();
    var f := DigestFields(d, i, r);
    var e := [("authorizationDigest", Quote(d)), ("invoiceId", Quote(i)), ("resourceHash", Quote(r))];
    DigestKeysUnique(d, i, r);
    assert DIGEST_KEY[0] == 97 && INVOICE_ID_KEY[0] == 105 && RESOURCE_KEY[0] == 114;
    assert Climbs(f) && Contained(f, f) && AllPrint(f, e);
    RecordPrinted(f, f, e);
  }

  // ---------- Requests ----------

  /** The text of a query: pairs in brackets. */
  function QueryText(q: Query): Text {
    [91] + Commas(seq(|q|, i requires 0 <= i < |q| => [91] + Quote(q[i].key) + [44] + Quote(q[i].value) + [93])) + [93]
  }

  lemma PairPrinted(p: Pair<Text>)
    ensures Canonicalize(PairJson(p)) == [91] + Quote(p.key) + [44] + Quote(p.value) + [93]
  {
    ArraySpelled(PairJson(p).items);
    assert CanonicalTexts(PairJson(p).items) == [Quote(p.key), Quote(p.value)];
    TwoInBrackets(Quote(p.key), Quote(p.value));
  }

  lemma TwoInBrackets(a: Text, b: Text)
    ensures Ascii("[") + Commas([a, b]) + Ascii("]") == [91] + a + [44] + b + [93]
  {
    assert [a, b][..1] == [a];
    assert Commas([a, b]) == a + [44] + b by {
      assert Ascii(",") == [44];
    }
    assert Ascii("[") == [91] && Ascii("]") == [93];
  }

  lemma QueryPrinted(q: Query)
    ensures Canonicalize(QueryJson(q)) == QueryText(q)
  {
    var v := QueryJson(q);
    ArraySpelled(v.items);
    forall i | 0 <= i < |q|
      ensures Canonicalize(v.items[i]) == [91] + Quote(q[i].key) + [44] + Quote(q[i].value) + [93]
    {
      PairPrinted(q[i]);
    }
    assert CanonicalTexts(v.items) ==
      seq(|q|, i requires 0 <= i < |q| => [91] + Quote(q[i].key) + [44] + Quote(q[i].value) + [93]);
    assert Ascii("[") == [91] && Ascii("]") == [93];
  }

  lemma BodyNames()
    ensures Ascii("body") == Spell("body") && Plain("body")
    ensures Ascii("query") == Spell("query") && Plain("query")
  {}

  lemma ResourceNamesFirst()
    ensures Ascii("bodyAndQueryHash") == Spell("bodyAndQueryHash") && Plain("bodyAndQueryHash")
    ensures Ascii("method") == Spell("method") && Plain("method")
  {}

  lemma ResourceNamesLast()
    ensures Ascii("path") == Spell("path") && Plain("path")
    ensures Ascii("serverOrigin") == Spell("serverOrigin") && Plain("serverOrigin")
  {}

  function BodyText(r: Request): Text { if r.body.Some? then Canonicalize(r.body.value) else Spell("null") }

  function BodyEntries(r: Request): seq<(string, Text)> {
    [("body", BodyText(r)), ("query", QueryText(CanonicalQuery(r.query)))]
  }

  lemma BodyPrinted(r: Request)
    ensures Canonicalize(Obj(BodyAndQuery(r))) == Record(BodyEntries(r))
  {
    var f := BodyAndQuery(r);
    BodyNames();
    BodyKeysUnique(r);
    QueryPrinted(CanonicalQuery(r.query));
    assert Spell("null") == [110, 117, 108, 108];
    assert Ascii("body")[0] == 98 && Ascii("query")[0] == 113;
    assert Climbs(f) && Contained(f, f) && AllPrint(f, BodyEntries(r));
    RecordPrinted(f, f, BodyEntries(r));
  }

  function ResourceEntries(digest: Text, verb: Text, path: Text, origin: Text): seq<(string, Text)> {
    [("bodyAndQueryHash", Quote(digest)), ("method", Quote(verb)), ("path", Quote(path)),
     ("serverOrigin", Quote(origin))]
  }

  lemma ResourcePrinted(digest: Text, verb: Text, path: Text, origin: Text)
    ensures Canonicalize(Obj(ResourceFields(digest, verb, path, origin))) ==
      Record(ResourceEntries(digest, verb, path, origin))
  {
    var f, e := ResourceFields(digest, verb, path, origin), ResourceEntries(digest, verb, path, origin);
    ResourceNamesFirst();
    ResourceNamesLast();
    ResourceKeysUnique(digest, verb, path, origin);
    assert f[0].key[0] == 98 && f[1].key[0] == 109 && f[2].key[0] == 112 && f[3].key[0] == 115;
    assert Climbs(f) && Contained(f, f) && AllPrint(f, e);
    RecordPrinted(f, f, e);
  }

  /** The method is an HTTP token; the path starts with exactly one slash and has neither query nor
      fragment. */
  predicate Hashable(r: Request) {
    && r.verb != []
    && (forall i | 0 <= i < |r.verb| :: r.verb[i] in Spell("!#$%&'*+-.^_`|~")
          || 48 <= r.verb[i] <= 57 || 65 <= r.verb[i] <= 90 || 97 <= r.verb[i] <= 122)
    && |r.path| > 0 && r.path[0] == 47 && (|r.path| > 1 ==> r.path[1] != 47)
    && forall i | 0 <= i < |r.path| :: r.path[i] !in Spell("?#")
  }

  lemma TokenUnits(u: Unit)
    ensures IsTokenUnit(u) <==>
      u in Spell("!#$%&'*+-.^_`|~") || 48 <= u <= 57 || 65 <= u <= 90 || 97 <= u <= 122
  {
    assert Spell("!#$%&'*+-.^_`|~") == [33, 35, 36, 37, 38, 39, 42, 43, 45, 46, 94, 95, 96, 124, 126];
  }

  lemma HashableExact(sha: HashFunction, r: Request)
    ensures ResourceHash(sha, r).Some? <==> Hashable(r)
    ensures Hashable(r) ==> NormalizeMethod(r.verb) == Some(Upper(r.verb)) && ValidatePath(r.path) == Some(r.path)
  {
    forall u: Unit
      ensures IsTokenUnit(u) <==>
        u in Spell("!#$%&'*+-.^_`|~") || 48 <= u <= 57 || 65 <= u <= 90 || 97 <= u <= 122
    {
      TokenUnits(u);
    }
    assert Spell("?#") == [63, 35];
  }

  /** A resource hash exists exactly for an acceptable method and path; it is taken of the record
      of the inner hash, the upper-cased method, the path and the origin. */
  lemma ResourceHashSpelled(sha: HashFunction, r: Request)
    ensures ResourceHash(sha, r).Some? <==> Hashable(r)
    ensures Hashable(r) ==> ResourceHash(sha, r) == Some(sha(Encode(Record([
      ("bodyAndQueryHash", Quote(sha(Encode(Record([
        ("body", BodyText(r)), ("query", QueryText(CanonicalQuery(r.query)))]))))),
      ("method", Quote(Upper(r.verb))), ("path", Quote(r.path)), ("serverOrigin", Quote(r.serverOrigin))]))))
  {
    HashableExact(sha, r);
    BodyPrinted(r);
    ResourcePrinted(BodyAndQueryHash(sha, r), Upper(r.verb), r.path, r.serverOrigin);
  }

  // ---------- Offers ----------

  lemma OfferNames()
    ensures ACCEPTS_KEY == Spell("accepts") && Plain("accepts")
    ensures INVOICE_KEY == Spell("invoice") && Plain("invoice")
    ensures ID_KEY == Spell("invoiceId") && Plain("invoiceId")
  {}

  lemma AcceptNames()
    ensures ASSET_KEY == Spell("asset") && Plain("asset")
    ensures PROOF_KEY == Spell("proofHeader") && Plain("proofHeader")
    ensures DESCRIPTION_KEY == Spell("description") && Plain("description")
  {}

  lemma AcceptLiteralNames()
    ensures Quote(XEC) == Quoted("XEC") && Quote(PAYMENT_PROOF) == Quoted("payment-proof")
  {
    assert XEC == Spell("XEC") && PAYMENT_PROOF == Spell("payment-proof");
    QuotePlain("XEC");
    QuotePlain("payment-proof");
  }

  function SortedAccept(i: Invoice): seq<Pair<Json>> {
    [Pair(AMOUNT_KEY, Str(i.amountSats)), Pair(ASSET_KEY, Str(XEC)), Pair(NETWORK_KEY, Str(MAINNET)),
     Pair(PAY_TO_KEY, Str(i.payTo)), Pair(PROOF_KEY, Str(PAYMENT_PROOF)), Pair(SCHEME_KEY, Str(EXACT))]
  }

  function SortedDescribed(i: Invoice, d: Text): seq<Pair<Json>> {
    SortedAccept(i)[..2] + [Pair(DESCRIPTION_KEY, Str(d))] + SortedAccept(i)[2..]
  }

  lemma AcceptArranged(i: Invoice, d: Text)
    ensures Contained(AcceptFields(i, None), SortedAccept(i)) && Contained(SortedAccept(i), AcceptFields(i, None))
    ensures Contained(AcceptFields(i, Some(d)), SortedDescribed(i, d))
    ensures Contained(SortedDescribed(i, d), AcceptFields(i, Some(d)))
  {
    var f, g := AcceptFields(i, None), SortedAccept(i);
    assert f == [g[1], g[2], g[5], g[0], g[3], g[4]];
    assert g == g[..2] + g[2..];
    Inserted(f, g[..2], g[2..], Pair(DESCRIPTION_KEY, Str(d)));
    assert AcceptFields(i, Some(d)) == f + [Pair(DESCRIPTION_KEY, Str(d))];
  }

  lemma AcceptKeysClimb()
    ensures Less(AMOUNT_KEY, ASSET_KEY) && Less(ASSET_KEY, NETWORK_KEY) && Less(NETWORK_KEY, PAY_TO_KEY)
    ensures Less(PAY_TO_KEY, PROOF_KEY) && Less(PROOF_KEY, SCHEME_KEY)
    ensures Less(ASSET_KEY, DESCRIPTION_KEY) && Less(DESCRIPTION_KEY, NETWORK_KEY)
  {
    assert AMOUNT_KEY[0] == 97 && ASSET_KEY[0] == 97 && AMOUNT_KEY[1..][0] == 109 && ASSET_KEY[1..][0] == 115;
    assert PAY_TO_KEY[0] == 112 && PROOF_KEY[0] == 112 && PAY_TO_KEY[1..][0] == 97 && PROOF_KEY[1..][0] == 114;
    assert NETWORK_KEY[0] == 110 && SCHEME_KEY[0] == 115 && DESCRIPTION_KEY[0] == 100;
  }

  lemma AcceptClimbs(i: Invoice, d: Text)
    ensures Climbs(SortedAccept(i)) && Climbs(SortedDescribed(i, d))
  {
    AcceptKeysClimb();
  }

  function AcceptEntries(i: Invoice): seq<(string, Text)> {
    [("amountSats", Quote(i.amountSats)), ("asset", Quoted("XEC")), ("network", Quoted("xec:mainnet")),
     ("payTo", Quote(i.payTo)), ("proofHeader", Quoted("payment-proof")), ("scheme", Quoted("exact"))]
  }

  function DescribedEntries(i: Invoice, d: Text): seq<(string, Text)> {
    [("amountSats", Quote(i.amountSats)), ("asset", Quoted("XEC")), ("description", Quote(d)),
     ("network", Quoted("xec:mainnet")), ("payTo", Quote(i.payTo)), ("proofHeader", Quoted("payment-proof")),
     ("scheme", Quoted("exact"))]
  }

  lemma AcceptPrintsNew(i: Invoice)
    ensures var g, e := SortedAccept(i), AcceptEntries(i); Prints(g[1], e[1]) && Prints(g[4], e[4])
  {
    AcceptNames();
    AcceptLiteralNames();
  }

  lemma AcceptPrintsCommon(i: Invoice)
    ensures var g, e := SortedAccept(i), AcceptEntries(i); Prints(g[2], e[2]) && Prints(g[3], e[3])
  {
    CommonNames();
    LiteralNames();
  }

  lemma AcceptPrintsOld(i: Invoice)
    ensures var g, e := SortedAccept(i), AcceptEntries(i); Prints(g[0], e[0]) && Prints(g[5], e[5])
  {
    InvoiceNames();
    SchemeNames();
    LiteralNames();
  }

  lemma AcceptPrints(i: Invoice)
    ensures AllPrint(SortedAccept(i), AcceptEntries(i))
  {
    AcceptPrintsNew(i);
    AcceptPrintsCommon(i);
    AcceptPrintsOld(i);
    SixPrint(SortedAccept(i), AcceptEntries(i));
  }

  lemma SixPrint(g: seq<Pair<Json>>, e: seq<(string, Text)>)
    requires |g| == |e| == 6 && Prints(g[0], e[0]) && Prints(g[1], e[1]) && Prints(g[2], e[2])
    requires Prints(g[3], e[3]) && Prints(g[4], e[4]) && Prints(g[5], e[5])
    ensures AllPrint(g, e)
  {}

  lemma DescribedPrints(i: Invoice, d: Text)
    ensures AllPrint(SortedDescribed(i, d), DescribedEntries(i, d))
  {
    AcceptPrints(i);
    AcceptNames();
    var g, e := SortedAccept(i), AcceptEntries(i);
    assert DescribedEntries(i, d) == e[..2] + [("description", Quote(d))] + e[2..];
    PrintsInserted(g, e, 2, Pair(DESCRIPTION_KEY, Str(d)), ("description", Quote(d)));
  }

  /** The text of the one accept entry. */
  function AcceptText(i: Invoice, d: Option<Text>): Text {
    Record(if d.Some? then DescribedEntries(i, d.value) else AcceptEntries(i))
  }

  lemma AcceptPrinted(i: Invoice, d: Option<Text>)
    ensures Canonicalize(Obj(AcceptFields(i, d))) == AcceptText(i, d)
  {
    AcceptKeysUnique(i, d);
    var text := if d.Some? then d.value else [];
    AcceptArranged(i, text);
    AcceptClimbs(i, text);
    if d.Some? {
      DescribedPrints(i, text);
      RecordPrinted(AcceptFields(i, d), SortedDescribed(i, text), DescribedEntries(i, text));
    } else {
      AcceptPrints(i);
      RecordPrinted(AcceptFields(i, d), SortedAccept(i), AcceptEntries(i));
    }
  }

  function SortedOffer(o: Offer): seq<Pair<Json>> {
    [Pair(ACCEPTS_KEY, Arr([Obj(AcceptFields(o.invoice, o.description))])), Pair(INVOICE_KEY, InvoiceJson(o.invoice)),
     Pair(ID_KEY, Str(o.invoiceId)), Pair(VERSION_KEY, Whole(1))]
  }

  /** The entries of the text of an offer. */
  function OfferEntries(o: Offer): seq<(string, Text)> {
    [("accepts", [91] + AcceptText(o.invoice, o.description) + [93]), ("invoice", Record(InvoiceEntries(o.invoice))),
     ("invoiceId", Quote(o.invoiceId)), ("x402Version", Spell("1"))]
  }

  lemma OfferClimbs(o: Offer)
    ensures Climbs(SortedOffer(o))
  {
    assert ACCEPTS_KEY[0] == 97 && INVOICE_KEY[0] == 105 && ID_KEY[0] == 105 && VERSION_KEY[0] == 120;
    assert INVOICE_KEY == ID_KEY[..7];
    LessPrefix(INVOICE_KEY, ID_KEY);
  }

  lemma OfferArranged(o: Offer)
    ensures Contained(OfferFields(o), SortedOffer(o)) && Contained(SortedOffer(o), OfferFields(o))
  {
    var f, g := OfferFields(o), SortedOffer(o);
    assert f == [g[3], g[2], g[1], g[0]];
  }

  lemma SinglePrinted(v: Json)
    ensures Canonicalize(Arr([v])) == [91] + Canonicalize(v) + [93]
  {
    ArraySpelled([v]);
    assert CanonicalTexts([v]) == [Canonicalize(v)];
    assert Ascii("[") == [91] && Ascii("]") == [93];
  }

  lemma OfferPrintsObjects(sha: HashFunction, o: Offer)
    ensures var g, e := SortedOffer(o), OfferEntries(o); Prints(g[0], e[0]) && Prints(g[1], e[1])
  {
    OfferNames();
    AcceptPrinted(o.invoice, o.description);
    SinglePrinted(Obj(AcceptFields(o.invoice, o.description)));
    InvoiceSpelled(sha, o.invoice);
  }

  lemma OfferPrintsRest(o: Offer)
    ensures var g, e := SortedOffer(o), OfferEntries(o); Prints(g[2], e[2]) && Prints(g[3], e[3])
  {
    OfferNames();
    SchemeNames();
    DecimalOne();
  }

  lemma OfferPrinted(sha: HashFunction, o: Offer)
    ensures Canonicalize(OfferJson(o)) == Record(OfferEntries(o))
  {
    OfferKeysUnique(o);
    OfferClimbs(o);
    OfferArranged(o);
    OfferPrintsObjects(sha, o);
    OfferPrintsRest(o);
    RecordPrinted(OfferFields(o), SortedOffer(o), OfferEntries(o));
  }

  /** The header of a valid offer is the URL-safe base64 of that text, up to 3072 bytes. */
  lemma HeaderSpelled(sha: HashFunction, o: Offer)
    requires ValidOffer(sha, o)
    ensures EncodeHeader(sha, OfferJson(o)) ==
      var bytes := Encode(Record(OfferEntries(o)));
      if |bytes| <= 3072 then Some(Base64.EncodeUrl(bytes)) else None
  {
    EncodeHeaderExact(sha, o);
    OfferPrinted(sha, o);
  }
}
