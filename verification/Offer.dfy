/** The payment-offer header: strict parsing, canonical encoding, strict decoding. */
module Offers {
  import opened Texts
  import opened Radix
  import opened StableSort
  import opened Json
  import opened CanonicalText
  import opened Resource
  import opened Invoices
  import Base64
  import JsonParser
  import Utf8

  const MAX_HEADER_LENGTH := 4096

  // ---------- Reading records ----------

  function Get(f: seq<Pair<Json>>, k: Text): (r: Option<Json>)
    ensures r.Some? ==> exists i | 0 <= i < |f| :: f[i] == Pair(k, r.value)
    ensures r.None? <==> forall i | 0 <= i < |f| :: f[i].key != k
  {
    if f == [] then None else if f[0].key == k then Some(f[0].value) else Get(f[1..], k)
  }

  function Keys(f: seq<Pair<Json>>): (r: seq<Text>)
    ensures |r| == |f| && forall i | 0 <= i < |f| :: r[i] == f[i].key
  {
    seq(|f|, i requires 0 <= i < |f| => f[i].key)
  }

  /** `hasExactKeys`: every required key, and no key that is neither required nor optional. */
  predicate HasExactKeys(f: seq<Pair<Json>>, required: seq<Text>, optional: seq<Text>) {
    && (forall i | 0 <= i < |required| :: Get(f, required[i]).Some?)
    && (forall j | 0 <= j < |f| :: f[j].key in required || f[j].key in optional)
  }

  ghost predicate FieldIs(f: seq<Pair<Json>>, p: Pair<Json>) {
    Get(f, p.key).Some? && Same(Get(f, p.key).value, p.value)
  }

  lemma GetUnique(f: seq<Pair<Json>>, i: nat)
    requires UniqueKeys(f) && i < |f|
    ensures Get(f, f[i].key) == Some(f[i].value)
  {}

  lemma FieldHasFor(f: seq<Pair<Json>>, p: Pair<Json>)
    requires UniqueKeys(f)
    ensures HasFor(f, p) <==> FieldIs(f, p)
  {
    if HasFor(f, p) {
      var m :| 0 <= m < |f| && f[m].key == p.key && Same(f[m].value, p.value);
      GetUnique(f, m);
    }
  }

  lemma FieldHas(f: seq<Pair<Json>>, g: seq<Pair<Json>>, j: nat)
    requires UniqueKeys(f) && j < |f| && AllFieldsAre(f, g)
    ensures Has(g, f[j]) <==> f[j].key in Keys(g)
  {
    if f[j].key in Keys(g) {
      var m :| 0 <= m < |g| && Keys(g)[m] == f[j].key;
      GetUnique(f, j);
      assert FieldIs(f, g[m]);
    }
    if Has(g, f[j]) {
      var m :| 0 <= m < |g| && g[m].key == f[j].key && Same(f[j].value, g[m].value);
      assert Keys(g)[m] == f[j].key;
    }
  }

  /** An object is a given record exactly when it has its keys, no other, and its values. */
  lemma RecordMatches(f: seq<Pair<Json>>, g: seq<Pair<Json>>)
    requires UniqueKeys(f)
    ensures Same(Obj(f), Obj(g)) <==> AllFieldsAre(f, g) && forall j | 0 <= j < |f| :: f[j].key in Keys(g)
  {
    forall i | 0 <= i < |g| ensures HasFor(f, g[i]) <==> FieldIs(f, g[i]) {
      FieldHasFor(f, g[i]);
    }
    if AllFieldsAre(f, g) {
      forall j | 0 <= j < |f| ensures Has(g, f[j]) <==> f[j].key in Keys(g) {
        FieldHas(f, g, j);
      }
    }
  }

  function TextAt(f: seq<Pair<Json>>, k: Text): Option<Text> {
    match Get(f, k)
    case Some(Str(s)) => Some(s)
    case _ => None
  }

  /** A number that is a non-negative integer. */
  function WholeValue(n: Number): Option<nat> {
    var t := Unsigned(n).token;
    if AllDigits(t) && Decimal(DecimalValue(t)) == t then Some(DecimalValue(t)) else None
  }

  function WholeAt(f: seq<Pair<Json>>, k: Text): Option<nat> {
    match Get(f, k)
    case Some(Num(n)) => WholeValue(n)
    case _ => None
  }

  lemma TextAtExact(f: seq<Pair<Json>>, k: Text, s: Text)
    ensures TextAt(f, k) == Some(s) <==> FieldIs(f, Pair(k, Str(s)))
  {}

  lemma WholeAtExact(f: seq<Pair<Json>>, k: Text, n: nat)
    ensures WholeAt(f, k) == Some(n) <==> FieldIs(f, Pair(k, Whole(n)))
  {
    DecimalRoundTrip(n);
  }

  // ---------- invoiceSchema ----------

  predicate InvoiceLiterals(f: seq<Pair<Json>>) {
    && WholeAt(f, VERSION_KEY) == Some(1)
    && TextAt(f, SCHEME_KEY) == Some(EXACT)
    && TextAt(f, NETWORK_KEY) == Some(MAINNET)
  }

  function ReadInvoice(f: seq<Pair<Json>>): Option<Invoice> {
    var resourceHash :- TextAt(f, RESOURCE_KEY);
    var amountSats :- TextAt(f, AMOUNT_KEY);
    var payTo :- TextAt(f, PAY_TO_KEY);
    var nonce :- TextAt(f, NONCE_KEY);
    var issuedAt :- WholeAt(f, ISSUED_KEY);
    var expiresAt :- WholeAt(f, EXPIRES_KEY);
    Some(Invoice(resourceHash, amountSats, payTo, nonce, issuedAt, expiresAt))
  }

  /** The strict invoice schema. */
  function ParseInvoice(v: Json): Option<Invoice> {
    if !v.Obj? || !HasExactKeys(v.fields, INVOICE_KEYS, []) || !InvoiceLiterals(v.fields) then None
    else
      var i :- ReadInvoice(v.fields);
      if ValidInvoice(i) then Some(i) else None
  }

  ghost predicate AllFieldsAre(f: seq<Pair<Json>>, g: seq<Pair<Json>>) {
    forall n | 0 <= n < |g| :: FieldIs(f, g[n])
  }

  lemma InvoiceTexts(f: seq<Pair<Json>>, i: Invoice)
    ensures FieldIs(f, Pair(SCHEME_KEY, Str(EXACT))) <==> TextAt(f, SCHEME_KEY) == Some(EXACT)
    ensures FieldIs(f, Pair(NETWORK_KEY, Str(MAINNET))) <==> TextAt(f, NETWORK_KEY) == Some(MAINNET)
    ensures FieldIs(f, Pair(RESOURCE_KEY, Str(i.resourceHash))) <==> TextAt(f, RESOURCE_KEY) == Some(i.resourceHash)
    ensures FieldIs(f, Pair(AMOUNT_KEY, Str(i.amountSats))) <==> TextAt(f, AMOUNT_KEY) == Some(i.amountSats)
    ensures FieldIs(f, Pair(PAY_TO_KEY, Str(i.payTo))) <==> TextAt(f, PAY_TO_KEY) == Some(i.payTo)
    ensures FieldIs(f, Pair(NONCE_KEY, Str(i.nonce))) <==> TextAt(f, NONCE_KEY) == Some(i.nonce)
  {
    TextAtExact(f, SCHEME_KEY, EXACT);
    TextAtExact(f, NETWORK_KEY, MAINNET);
    TextAtExact(f, RESOURCE_KEY, i.resourceHash);
    TextAtExact(f, AMOUNT_KEY, i.amountSats);
    TextAtExact(f, PAY_TO_KEY, i.payTo);
    TextAtExact(f, NONCE_KEY, i.nonce);
  }

  lemma NineFields(f: seq<Pair<Json>>, g: seq<Pair<Json>>)
    requires |g| == 9
    ensures AllFieldsAre(f, g) <==>
      && FieldIs(f, g[0]) && FieldIs(f, g[1]) && FieldIs(f, g[2]) && FieldIs(f, g[3]) && FieldIs(f, g[4])
      && FieldIs(f, g[5]) && FieldIs(f, g[6]) && FieldIs(f, g[7]) && FieldIs(f, g[8])
  {
    AllFieldsSplit(f, g, 3);
    AllFieldsSplit(f, g[3..], 3);
    ThreeFields(f, g[..3]);
    ThreeFields(f, g[3..][..3]);
    ThreeFields(f, g[3..][3..]);
  }

  lemma NineAre(f: seq<Pair<Json>>, a: Pair<Json>, b: Pair<Json>, c: Pair<Json>, d: Pair<Json>, e: Pair<Json>,
      p: Pair<Json>, q: Pair<Json>, r: Pair<Json>, s: Pair<Json>)
    ensures AllFieldsAre(f, [a, b, c, d, e, p, q, r, s]) <==>
      && FieldIs(f, a) && FieldIs(f, b) && FieldIs(f, c) && FieldIs(f, d) && FieldIs(f, e)
      && FieldIs(f, p) && FieldIs(f, q) && FieldIs(f, r) && FieldIs(f, s)
  {
    NineFields(f, [a, b, c, d, e, p, q, r, s]);
  }

  lemma AllFieldsSplit(f: seq<Pair<Json>>, g: seq<Pair<Json>>, k: nat)
    requires k <= |g|
    ensures AllFieldsAre(f, g) <==> AllFieldsAre(f, g[..k]) && AllFieldsAre(f, g[k..])
  {
    if AllFieldsAre(f, g[..k]) && AllFieldsAre(f, g[k..]) {
      forall n | 0 <= n < |g| ensures FieldIs(f, g[n]) {
        assert if n < k then g[n] == g[..k][n] else g[n] == g[k..][n - k];
      }
    }
  }

  lemma ThreeFields(f: seq<Pair<Json>>, g: seq<Pair<Json>>)
    requires |g| == 3
    ensures AllFieldsAre(f, g) <==> FieldIs(f, g[0]) && FieldIs(f, g[1]) && FieldIs(f, g[2])
  {}

  ghost predicate InvoiceRead(f: seq<Pair<Json>>, i: Invoice) {
    && TextAt(f, RESOURCE_KEY) == Some(i.resourceHash) && TextAt(f, AMOUNT_KEY) == Some(i.amountSats)
    && TextAt(f, PAY_TO_KEY) == Some(i.payTo) && TextAt(f, NONCE_KEY) == Some(i.nonce)
    && WholeAt(f, ISSUED_KEY) == Some(i.issuedAt) && WholeAt(f, EXPIRES_KEY) == Some(i.expiresAt)
  }

  lemma ReadInvoiceExact(f: seq<Pair<Json>>, i: Invoice)
    ensures ReadInvoice(f) == Some(i) <==> InvoiceRead(f, i)
  {}

  lemma InvoiceReadExact(f: seq<Pair<Json>>, i: Invoice)
    ensures AllFieldsAre(f, InvoiceFields(i)) <==> InvoiceLiterals(f) && InvoiceRead(f, i)
  {
    NineAre(f, Pair(VERSION_KEY, Whole(1)), Pair(SCHEME_KEY, Str(EXACT)), Pair(NETWORK_KEY, Str(MAINNET)),
            Pair(RESOURCE_KEY, Str(i.resourceHash)), Pair(AMOUNT_KEY, Str(i.amountSats)),
            Pair(PAY_TO_KEY, Str(i.payTo)), Pair(NONCE_KEY, Str(i.nonce)),
            Pair(ISSUED_KEY, Whole(i.issuedAt)), Pair(EXPIRES_KEY, Whole(i.expiresAt)));
    InvoiceTexts(f, i);
    InvoiceWholes(f, i);
  }

  lemma InvoiceWholes(f: seq<Pair<Json>>, i: Invoice)
    ensures FieldIs(f, Pair(VERSION_KEY, Whole(1))) <==> WholeAt(f, VERSION_KEY) == Some(1)
    ensures FieldIs(f, Pair(ISSUED_KEY, Whole(i.issuedAt))) <==> WholeAt(f, ISSUED_KEY) == Some(i.issuedAt)
    ensures FieldIs(f, Pair(EXPIRES_KEY, Whole(i.expiresAt))) <==> WholeAt(f, EXPIRES_KEY) == Some(i.expiresAt)
  {
    WholeAtExact(f, VERSION_KEY, 1);
    WholeAtExact(f, ISSUED_KEY, i.issuedAt);
    WholeAtExact(f, EXPIRES_KEY, i.expiresAt);
  }

  /** Exact keys are the keys of a record none of whose keys is optional. */
  lemma ExactKeysOf(f: seq<Pair<Json>>, g: seq<Pair<Json>>, keys: seq<Text>)
    requires Keys(g) == keys && AllFieldsAre(f, g)
    ensures HasExactKeys(f, keys, []) <==> forall j | 0 <= j < |f| :: f[j].key in keys
  {
    forall n | 0 <= n < |keys| ensures Get(f, keys[n]).Some? {
      assert FieldIs(f, g[n]);
    }
  }

  /** Exact keys and matching values make exactly the given record. */
  lemma ExactRecord(f: seq<Pair<Json>>, g: seq<Pair<Json>>, keys: seq<Text>)
    requires UniqueKeys(f) && Keys(g) == keys
    ensures HasExactKeys(f, keys, []) && AllFieldsAre(f, g) <==> Same(Obj(f), Obj(g))
  {
    RecordMatches(f, g);
    if AllFieldsAre(f, g) {
      ExactKeysOf(f, g, keys);
    }
  }

  lemma InvoiceObjectExact(f: seq<Pair<Json>>, i: Invoice)
    requires UniqueKeys(f)
    ensures HasExactKeys(f, INVOICE_KEYS, []) && InvoiceLiterals(f) && ReadInvoice(f) == Some(i) <==>
      Same(Obj(f), InvoiceJson(i))
  {
    var g := InvoiceFields(i);
    assert Keys(g) == INVOICE_KEYS;
    ExactRecord(f, g, INVOICE_KEYS);
    InvoiceReadExact(f, i);
    ReadInvoiceExact(f, i);
  }

  /** The schema accepts exactly the JSON of a valid invoice, and reads that invoice. */
  lemma ParseInvoiceExact(v: Json, i: Invoice)
    requires WellFormed(v)
    ensures ParseInvoice(v) == Some(i) <==> ValidInvoice(i) && Same(v, InvoiceJson(i))
  {
    if v.Obj? {
      InvoiceObjectExact(v.fields, i);
      assert v == Obj(v.fields);
    }
  }

  // ---------- parsePaymentOffer ----------

  /** A payment offer: its one accept entry repeats the invoice and may carry a description. */
  datatype Offer = Offer(invoiceId: Text, invoice: Invoice, description: Option<Text>)

  predicate ValidOffer(sha: HashFunction, o: Offer) {
    IsHash(o.invoiceId) && ValidInvoice(o.invoice) && InvoiceHash(sha, o.invoice) == o.invoiceId
  }

  const ID_KEY := Ascii("invoiceId")
  const INVOICE_KEY := Ascii("invoice")
  const ACCEPTS_KEY := Ascii("accepts")
  const ASSET_KEY := Ascii("asset")
  const PROOF_KEY := Ascii("proofHeader")
  const DESCRIPTION_KEY := Ascii("description")

  const XEC := Ascii("XEC")
  const PAYMENT_PROOF := Ascii("payment-proof")

  const OFFER_KEYS: seq<Text> := [VERSION_KEY, ID_KEY, INVOICE_KEY, ACCEPTS_KEY]
  const ACCEPT_KEYS: seq<Text> := [ASSET_KEY, NETWORK_KEY, SCHEME_KEY, AMOUNT_KEY, PAY_TO_KEY, PROOF_KEY]

  function AcceptFields(i: Invoice, description: Option<Text>): seq<Pair<Json>> {
    [Pair(ASSET_KEY, Str(XEC)), Pair(NETWORK_KEY, Str(MAINNET)), Pair(SCHEME_KEY, Str(EXACT)),
     Pair(AMOUNT_KEY, Str(i.amountSats)), Pair(PAY_TO_KEY, Str(i.payTo)), Pair(PROOF_KEY, Str(PAYMENT_PROOF))]
    + (if description.Some? then [Pair(DESCRIPTION_KEY, Str(description.value))] else [])
  }

  function OfferFields(o: Offer): seq<Pair<Json>> {
    [Pair(VERSION_KEY, Whole(1)), Pair(ID_KEY, Str(o.invoiceId)), Pair(INVOICE_KEY, InvoiceJson(o.invoice)),
     Pair(ACCEPTS_KEY, Arr([Obj(AcceptFields(o.invoice, o.description))]))]
  }

  function OfferJson(o: Offer): Json { Obj(OfferFields(o)) }

  /** The accept entry: fixed literals, the invoice's amount and address, a description that
      is missing or a string. The result is the description. */
  function ParseAccept(v: Json, i: Invoice): Option<Option<Text>> {
    if !v.Obj? || !HasExactKeys(v.fields, ACCEPT_KEYS, [DESCRIPTION_KEY]) then None
    else
      var f := v.fields;
      if && TextAt(f, ASSET_KEY) == Some(XEC) && TextAt(f, NETWORK_KEY) == Some(MAINNET)
         && TextAt(f, SCHEME_KEY) == Some(EXACT) && TextAt(f, PROOF_KEY) == Some(PAYMENT_PROOF)
         && TextAt(f, AMOUNT_KEY) == Some(i.amountSats) && TextAt(f, PAY_TO_KEY) == Some(i.payTo)
      then
        match Get(f, DESCRIPTION_KEY)
        case None => Some(None)
        case Some(Str(s)) => Some(Some(s))
        case _ => None
      else None
  }

  function ParseOffer(sha: HashFunction, v: Json): Option<Offer> {
    if !v.Obj? || !HasExactKeys(v.fields, OFFER_KEYS, []) || WholeAt(v.fields, VERSION_KEY) != Some(1) then None
    else
      var f := v.fields;
      var invoiceId :- TextAt(f, ID_KEY);
      var invoiceJson :- Get(f, INVOICE_KEY);
      var invoice :- ParseInvoice(invoiceJson);
      var accepts :- Get(f, ACCEPTS_KEY);
      if !IsHash(invoiceId) || InvoiceHash(sha, invoice) != invoiceId || !accepts.Arr? || |accepts.items| != 1 then None
      else
        var description :- ParseAccept(accepts.items[0], invoice);
        Some(Offer(invoiceId, invoice, description))
  }

  lemma AcceptTexts(f: seq<Pair<Json>>, i: Invoice)
    ensures FieldIs(f, Pair(ASSET_KEY, Str(XEC))) <==> TextAt(f, ASSET_KEY) == Some(XEC)
    ensures FieldIs(f, Pair(NETWORK_KEY, Str(MAINNET))) <==> TextAt(f, NETWORK_KEY) == Some(MAINNET)
    ensures FieldIs(f, Pair(SCHEME_KEY, Str(EXACT))) <==> TextAt(f, SCHEME_KEY) == Some(EXACT)
    ensures FieldIs(f, Pair(AMOUNT_KEY, Str(i.amountSats))) <==> TextAt(f, AMOUNT_KEY) == Some(i.amountSats)
    ensures FieldIs(f, Pair(PAY_TO_KEY, Str(i.payTo))) <==> TextAt(f, PAY_TO_KEY) == Some(i.payTo)
    ensures FieldIs(f, Pair(PROOF_KEY, Str(PAYMENT_PROOF))) <==> TextAt(f, PROOF_KEY) == Some(PAYMENT_PROOF)
  {
    TextAtExact(f, ASSET_KEY, XEC);
    TextAtExact(f, NETWORK_KEY, MAINNET);
    TextAtExact(f, SCHEME_KEY, EXACT);
    TextAtExact(f, AMOUNT_KEY, i.amountSats);
    TextAtExact(f, PAY_TO_KEY, i.payTo);
    TextAtExact(f, PROOF_KEY, PAYMENT_PROOF);
  }

  predicate AcceptLiterals(f: seq<Pair<Json>>, i: Invoice) {
    && TextAt(f, ASSET_KEY) == Some(XEC) && TextAt(f, NETWORK_KEY) == Some(MAINNET)
    && TextAt(f, SCHEME_KEY) == Some(EXACT) && TextAt(f, PROOF_KEY) == Some(PAYMENT_PROOF)
    && TextAt(f, AMOUNT_KEY) == Some(i.amountSats) && TextAt(f, PAY_TO_KEY) == Some(i.payTo)
  }

  lemma SixAre(f: seq<Pair<Json>>, a: Pair<Json>, b: Pair<Json>, c: Pair<Json>, d: Pair<Json>, e: Pair<Json>,
      p: Pair<Json>)
    ensures AllFieldsAre(f, [a, b, c, d, e, p]) <==>
      && FieldIs(f, a) && FieldIs(f, b) && FieldIs(f, c) && FieldIs(f, d) && FieldIs(f, e) && FieldIs(f, p)
  {
    var g := [a, b, c, d, e, p];
    AllFieldsSplit(f, g, 3);
    ThreeFields(f, g[..3]);
    ThreeFields(f, g[3..]);
  }

  lemma AcceptRequired(f: seq<Pair<Json>>, i: Invoice)
    ensures AllFieldsAre(f, AcceptFields(i, None)) <==> AcceptLiterals(f, i)
  {
    var a, b, c := Pair(ASSET_KEY, Str(XEC)), Pair(NETWORK_KEY, Str(MAINNET)), Pair(SCHEME_KEY, Str(EXACT));
    var d, e := Pair(AMOUNT_KEY, Str(i.amountSats)), Pair(PAY_TO_KEY, Str(i.payTo));
    var p := Pair(PROOF_KEY, Str(PAYMENT_PROOF));
    assert AcceptFields(i, None) == [a, b, c, d, e, p];
    SixAre(f, a, b, c, d, e, p);
    AcceptTexts(f, i);
  }

  lemma OneField(f: seq<Pair<Json>>, p: Pair<Json>)
    ensures AllFieldsAre(f, [p]) <==> FieldIs(f, p)
  {
    assert [p][0] == p;
  }

  lemma AcceptFieldsExact(f: seq<Pair<Json>>, i: Invoice, d: Option<Text>)
    ensures AllFieldsAre(f, AcceptFields(i, d)) <==>
      AcceptLiterals(f, i) && (d.Some? ==> TextAt(f, DESCRIPTION_KEY) == d)
  {
    AcceptRequired(f, i);
    if d.Some? {
      var p := Pair(DESCRIPTION_KEY, Str(d.value));
      AllFieldsSplit(f, AcceptFields(i, d), 6);
      assert AcceptFields(i, d)[..6] == AcceptFields(i, None) && AcceptFields(i, d)[6..] == [p];
      OneField(f, p);
      TextAtExact(f, DESCRIPTION_KEY, d.value);
    }
  }

  lemma DescriptionIsExtra()
    ensures DESCRIPTION_KEY !in ACCEPT_KEYS
  {
    assert |DESCRIPTION_KEY| == 11 && |PROOF_KEY| == 11 && DESCRIPTION_KEY[0] == 100 && PROOF_KEY[0] == 112;
    assert |ASSET_KEY| == 5 && |NETWORK_KEY| == 7 && |SCHEME_KEY| == 6 && |AMOUNT_KEY| == 10 && |PAY_TO_KEY| == 5;
  }

  lemma AcceptKeys(i: Invoice, d: Option<Text>)
    ensures Keys(AcceptFields(i, d)) == ACCEPT_KEYS + (if d.Some? then [DESCRIPTION_KEY] else [])
  {}

  /** The keys of a record with one optional entry, present or missing. */
  lemma OptionalKey(f: seq<Pair<Json>>, keys: seq<Text>, required: seq<Text>, extra: Text, present: bool)
    requires extra !in required && keys == required + (if present then [extra] else [])
    requires forall n | 0 <= n < |required| :: Get(f, required[n]).Some?
    ensures (forall j | 0 <= j < |f| :: f[j].key in keys) <==>
      HasExactKeys(f, required, [extra]) && (!present ==> Get(f, extra).None?)
  {
    assert !present ==> keys == required;
  }

  lemma RequiredPresent(f: seq<Pair<Json>>, g: seq<Pair<Json>>, required: seq<Text>)
    requires AllFieldsAre(f, g) && required <= Keys(g)
    ensures forall n | 0 <= n < |required| :: Get(f, required[n]).Some?
  {
    forall n | 0 <= n < |required| ensures Get(f, required[n]).Some? {
      assert FieldIs(f, g[n]) && Keys(g)[n] == required[n];
    }
  }

  /** Which keys may occur in a record with one optional entry, given its values. */
  lemma OptionalKeyExact(f: seq<Pair<Json>>, g: seq<Pair<Json>>, required: seq<Text>, extra: Text, present: bool)
    requires AllFieldsAre(f, g)
    requires extra !in required && Keys(g) == required + (if present then [extra] else [])
    ensures (forall j | 0 <= j < |f| :: f[j].key in Keys(g)) <==>
      HasExactKeys(f, required, [extra]) && (!present ==> Get(f, extra).None?)
  {
    RequiredPresent(f, g, required);
    OptionalKey(f, Keys(g), required, extra, present);
  }

  lemma ParseAcceptObject(f: seq<Pair<Json>>, i: Invoice, d: Option<Text>)
    ensures ParseAccept(Obj(f), i) == Some(d) <==>
      && HasExactKeys(f, ACCEPT_KEYS, [DESCRIPTION_KEY]) && AcceptLiterals(f, i)
      && (d.Some? ==> TextAt(f, DESCRIPTION_KEY) == d) && (d.None? ==> Get(f, DESCRIPTION_KEY).None?)
  {}

  lemma ParseAcceptExact(v: Json, i: Invoice, d: Option<Text>)
    requires WellFormed(v)
    ensures ParseAccept(v, i) == Some(d) <==> Same(v, Obj(AcceptFields(i, d)))
  {
    if v.Obj? {
      var f, g := v.fields, AcceptFields(i, d);
      ParseAcceptObject(f, i, d);
      AcceptFieldsExact(f, i, d);
      RecordMatches(f, g);
      if AllFieldsAre(f, g) {
        AcceptKeys(i, d);
        DescriptionIsExtra();
        OptionalKeyExact(f, g, ACCEPT_KEYS, DESCRIPTION_KEY, d.Some?);
      }
      assert v == Obj(f);
    }
  }

  lemma FourAre(f: seq<Pair<Json>>, a: Pair<Json>, b: Pair<Json>, c: Pair<Json>, d: Pair<Json>)
    ensures AllFieldsAre(f, [a, b, c, d]) <==> FieldIs(f, a) && FieldIs(f, b) && FieldIs(f, c) && FieldIs(f, d)
  {
    var g := [a, b, c, d];
    AllFieldsSplit(f, g, 3);
    ThreeFields(f, g[..3]);
    OneField(f, d);
    assert g[3..] == [d];
  }

  ghost predicate OfferRead(f: seq<Pair<Json>>, o: Offer) {
    && WholeAt(f, VERSION_KEY) == Some(1)
    && TextAt(f, ID_KEY) == Some(o.invoiceId)
    && FieldIs(f, Pair(INVOICE_KEY, InvoiceJson(o.invoice)))
    && FieldIs(f, Pair(ACCEPTS_KEY, Arr([Obj(AcceptFields(o.invoice, o.description))])))
  }

  lemma OfferFieldsExact(f: seq<Pair<Json>>, o: Offer)
    ensures AllFieldsAre(f, OfferFields(o)) <==> OfferRead(f, o)
  {
    FourAre(f, Pair(VERSION_KEY, Whole(1)), Pair(ID_KEY, Str(o.invoiceId)), Pair(INVOICE_KEY, InvoiceJson(o.invoice)),
            Pair(ACCEPTS_KEY, Arr([Obj(AcceptFields(o.invoice, o.description))])));
    WholeAtExact(f, VERSION_KEY, 1);
    TextAtExact(f, ID_KEY, o.invoiceId);
  }

  lemma OfferObjectExact(f: seq<Pair<Json>>, o: Offer)
    requires UniqueKeys(f)
    ensures Same(Obj(f), OfferJson(o)) <==> HasExactKeys(f, OFFER_KEYS, []) && OfferRead(f, o)
  {
    assert Keys(OfferFields(o)) == OFFER_KEYS;
    ExactRecord(f, OfferFields(o), OFFER_KEYS);
    OfferFieldsExact(f, o);
  }

  lemma SingletonSame(v: Json, w: Json)
    ensures Same(v, Arr([w])) <==> v.Arr? && |v.items| == 1 && Same(v.items[0], w)
  {
    assert [w][0] == w;
  }

  lemma GetWellFormed(f: seq<Pair<Json>>, k: Text)
    requires WellFormed(Obj(f)) && Get(f, k).Some?
    ensures WellFormed(Get(f, k).value)
  {}

  lemma OfferInvoiceExact(f: seq<Pair<Json>>, i: Invoice)
    requires WellFormed(Obj(f)) && ValidInvoice(i)
    ensures FieldIs(f, Pair(INVOICE_KEY, InvoiceJson(i))) <==>
      Get(f, INVOICE_KEY).Some? && ParseInvoice(Get(f, INVOICE_KEY).value) == Some(i)
  {
    if Get(f, INVOICE_KEY).Some? {
      GetWellFormed(f, INVOICE_KEY);
      ParseInvoiceExact(Get(f, INVOICE_KEY).value, i);
    }
  }

  predicate AcceptsRead(f: seq<Pair<Json>>, i: Invoice, d: Option<Text>) {
    && Get(f, ACCEPTS_KEY).Some?
    && var accepts := Get(f, ACCEPTS_KEY).value;
    && accepts.Arr? && |accepts.items| == 1 && ParseAccept(accepts.items[0], i) == Some(d)
  }

  lemma OfferAcceptsExact(f: seq<Pair<Json>>, i: Invoice, d: Option<Text>)
    requires WellFormed(Obj(f))
    ensures FieldIs(f, Pair(ACCEPTS_KEY, Arr([Obj(AcceptFields(i, d))]))) <==> AcceptsRead(f, i, d)
  {
    if Get(f, ACCEPTS_KEY).Some? {
      var accepts := Get(f, ACCEPTS_KEY).value;
      GetWellFormed(f, ACCEPTS_KEY);
      SingletonSame(accepts, Obj(AcceptFields(i, d)));
      if accepts.Arr? && |accepts.items| == 1 {
        ParseAcceptExact(accepts.items[0], i, d);
      }
    }
  }

  lemma ParsedInvoiceValid(v: Json)
    ensures ParseInvoice(v).Some? ==> ValidInvoice(ParseInvoice(v).value)
  {}

  lemma ParseOfferObject(sha: HashFunction, f: seq<Pair<Json>>, o: Offer)
    ensures ParseOffer(sha, Obj(f)) == Some(o) <==>
      && HasExactKeys(f, OFFER_KEYS, []) && WholeAt(f, VERSION_KEY) == Some(1)
      && TextAt(f, ID_KEY) == Some(o.invoiceId) && IsHash(o.invoiceId)
      && Get(f, INVOICE_KEY).Some? && ParseInvoice(Get(f, INVOICE_KEY).value) == Some(o.invoice)
      && InvoiceHash(sha, o.invoice) == o.invoiceId && AcceptsRead(f, o.invoice, o.description)
  {}

  /** The parser accepts exactly the JSON of valid offers, and reads that offer: it forgets
      nothing and tolerates nothing but entry order. */
  lemma ParseOfferExact(sha: HashFunction, v: Json, o: Offer)
    requires WellFormed(v)
    ensures ParseOffer(sha, v) == Some(o) <==> ValidOffer(sha, o) && Same(v, OfferJson(o))
  {
    if v.Obj? {
      var f := v.fields;
      ParseOfferObject(sha, f, o);
      if Get(f, INVOICE_KEY).Some? {
        ParsedInvoiceValid(Get(f, INVOICE_KEY).value);
      }
      if ValidInvoice(o.invoice) {
        OfferInvoiceExact(f, o.invoice);
        OfferAcceptsExact(f, o.invoice, o.description);
      }
      OfferObjectExact(f, o);
      assert v == Obj(f);
    }
  }

  lemma AcceptKeysUnique(i: Invoice, d: Option<Text>)
    ensures UniqueKeys(AcceptFields(i, d))
  {
    DescriptionIsExtra();
    InvoiceKeysDistinct();
    assert |ASSET_KEY| == 5 && ASSET_KEY[0] == 97 && PAY_TO_KEY[0] == 112 && |PAY_TO_KEY| == 5;
    assert |NETWORK_KEY| == 7 && |SCHEME_KEY| == 6 && |AMOUNT_KEY| == 10 && |PROOF_KEY| == 11;
    var f := AcceptFields(i, d);
    AcceptKeys(i, d);
    forall m, n | 0 <= m < n < |f| ensures f[m].key != f[n].key {
      assert f[m].key == Keys(f)[m] && f[n].key == Keys(f)[n];
    }
  }

  lemma OfferKeysUnique(o: Offer)
    ensures UniqueKeys(OfferFields(o))
  {
    assert |VERSION_KEY| == 11 && |ID_KEY| == 9 && |INVOICE_KEY| == 7 && |ACCEPTS_KEY| == 7;
    assert INVOICE_KEY[0] == 105 && ACCEPTS_KEY[0] == 97;
  }

  lemma OfferJsonWellFormed(o: Offer)
    ensures WellFormed(OfferJson(o))
  {
    var f := OfferFields(o);
    var accept := Obj(AcceptFields(o.invoice, o.description));
    OfferKeysUnique(o);
    AcceptKeysUnique(o.invoice, o.description);
    InvoiceJsonWellFormed(o.invoice);
    WholeInjective(1, 1);
    assert WellFormed(accept);
    assert WellFormed(f[0].value) && WellFormed(f[1].value) && WellFormed(f[2].value) && WellFormed(f[3].value);
  }

  // ---------- The header ----------

  /** Encodes an offer object, if it is valid and its encoding fits. */
  function EncodeHeader(sha: HashFunction, v: Json): Option<Text> {
    var parsed :- ParseOffer(sha, v);
    var encoded := Base64.EncodeUrl(Utf8.CanonicalBytes(OfferJson(parsed)));
    if |encoded| > MAX_HEADER_LENGTH then None else Some(encoded)
  }

  /** `JSON.parse` is a parameter; None stands for a syntax error. */
  function DecodeHeader(sha: HashFunction, jsonParse: Text -> Option<Json>, encoded: Text): Option<Offer> {
    if |encoded| == 0 || |encoded| > MAX_HEADER_LENGTH || !Base64.AllIn(Base64.Url, encoded) || |encoded| % 4 == 1
    then None
    else
      var bytes := Base64.Decode(encoded);
      if Base64.EncodeUrl(bytes) != encoded then None
      else
        var json := Utf8.Decode(bytes);
        if Utf8.Encode(json) != bytes then None
        else
          var value :- jsonParse(json);
          var parsed :- ParseOffer(sha, value);
          if EncodeHeader(sha, OfferJson(parsed)) != Some(encoded) then None else Some(parsed)
  }

  /** The parser reads the canonical text of v as the value v. */
  ghost predicate ReadsBack(jsonParse: Text -> Option<Json>, v: Json) {
    && jsonParse(Canonicalize(v)).Some?
    && WellFormed(jsonParse(Canonicalize(v)).value)
    && Same(v, jsonParse(Canonicalize(v)).value)
  }

  lemma ParsedOfferValid(sha: HashFunction, v: Json)
    ensures ParseOffer(sha, v).Some? ==> ValidOffer(sha, ParseOffer(sha, v).value)
  {
    if ParseOffer(sha, v).Some? {
      assert v == Obj(v.fields);
      ParseOfferObject(sha, v.fields, ParseOffer(sha, v).value);
      ParsedInvoiceValid(Get(v.fields, INVOICE_KEY).value);
    }
  }

  lemma SameReflexive(v: Json)
    requires WellFormed(v)
    ensures Same(v, v)
  {
    NormSame(v, v);
  }

  /** A valid offer is encoded exactly when its canonical text has at most 3072 bytes. */
  lemma EncodeHeaderExact(sha: HashFunction, o: Offer)
    requires ValidOffer(sha, o)
    ensures EncodeHeader(sha, OfferJson(o)) ==
      var bytes := Utf8.CanonicalBytes(OfferJson(o));
      if |bytes| <= 3072 then Some(Base64.EncodeUrl(bytes)) else None
  {
    OfferJsonWellFormed(o);
    SameReflexive(OfferJson(o));
    ParseOfferExact(sha, OfferJson(o), o);
    Base64.HeaderBound(Utf8.CanonicalBytes(OfferJson(o)));
  }

  /** Anything that is not the JSON of a valid offer is not encoded; what is, is encoded as that
      offer, whatever the order of its entries. */
  lemma EncodeAnyExact(sha: HashFunction, v: Json, o: Offer)
    requires WellFormed(v)
    ensures ValidOffer(sha, o) && Same(v, OfferJson(o)) ==> EncodeHeader(sha, v) == EncodeHeader(sha, OfferJson(o))
    ensures EncodeHeader(sha, v).Some? ==> exists p :: ValidOffer(sha, p) && Same(v, OfferJson(p))
  {
    ParseOfferExact(sha, v, o);
    if ValidOffer(sha, o) {
      OfferJsonWellFormed(o);
      SameReflexive(OfferJson(o));
      ParseOfferExact(sha, OfferJson(o), o);
    }
    if EncodeHeader(sha, v).Some? {
      ParseOfferExact(sha, v, ParseOffer(sha, v).value);
    }
  }

  lemma CanonicalBytesNonEmpty(o: Offer)
    ensures Utf8.CanonicalBytes(OfferJson(o)) != []
  {
    assert Canonicalize(OfferJson(o))[0] == 123;
  }

  /** Decoding what encoding produced gives the offer back. */
  lemma HeaderRoundTrip(sha: HashFunction, jsonParse: Text -> Option<Json>, o: Offer)
    requires ReadsBack(jsonParse, OfferJson(o))
    requires ValidOffer(sha, o) && EncodeHeader(sha, OfferJson(o)).Some?
    ensures DecodeHeader(sha, jsonParse, EncodeHeader(sha, OfferJson(o)).value) == Some(o)
  {
    var v := OfferJson(o);
    var bytes := Utf8.CanonicalBytes(v);
    EncodeHeaderExact(sha, o);
    OfferJsonWellFormed(o);
    CanonicalBytesNonEmpty(o);
    Base64.DecodeEncode(Base64.Url, bytes);
    Base64.DigitsLength(bytes);
    Utf8.CanonicalBytesDecode(v);
    var w := jsonParse(Canonicalize(v)).value;
    SameSymmetric(v, w);
    ParseOfferExact(sha, w, o);
  }

  lemma SameSymmetric(v: Json, w: Json)
    requires WellFormed(v) && WellFormed(w) && Same(v, w)
    ensures Same(w, v)
  {
    NormSame(v, w);
    NormSame(w, v);
  }

  /** Decoding accepts exactly the encodings of valid offers, each as its own offer. */
  lemma DecodeExact(sha: HashFunction, jsonParse: Text -> Option<Json>, encoded: Text, o: Offer)
    requires ReadsBack(jsonParse, OfferJson(o))
    ensures DecodeHeader(sha, jsonParse, encoded) == Some(o) <==>
      ValidOffer(sha, o) && EncodeHeader(sha, OfferJson(o)) == Some(encoded)
  {
    if ValidOffer(sha, o) && EncodeHeader(sha, OfferJson(o)) == Some(encoded) {
      HeaderRoundTrip(sha, jsonParse, o);
    } else if DecodeHeader(sha, jsonParse, encoded) == Some(o) {
      DecodedValid(sha, jsonParse, encoded);
    }
  }

  lemma DecodedValid(sha: HashFunction, jsonParse: Text -> Option<Json>, encoded: Text)
    requires DecodeHeader(sha, jsonParse, encoded).Some?
    ensures var o := DecodeHeader(sha, jsonParse, encoded).value;
      ValidOffer(sha, o) && EncodeHeader(sha, OfferJson(o)) == Some(encoded)
  {
    var value := jsonParse(Utf8.Decode(Base64.Decode(encoded))).value;
    ParsedOfferValid(sha, value);
  }

  /** Different valid offers never share a header, whatever the JSON reader does. */
  lemma HeaderInjective(sha: HashFunction, o: Offer, p: Offer)
    requires ValidOffer(sha, o) && ValidOffer(sha, p)
    requires EncodeHeader(sha, OfferJson(o)).Some?
    requires EncodeHeader(sha, OfferJson(o)) == EncodeHeader(sha, OfferJson(p))
    ensures o == p
  {
    EncodeHeaderExact(sha, o);
    EncodeHeaderExact(sha, p);
    Base64.EncodeUrlInjective(Utf8.CanonicalBytes(OfferJson(o)), Utf8.CanonicalBytes(OfferJson(p)));
    OfferJsonWellFormed(o);
    OfferJsonWellFormed(p);
    Utf8.CanonicalBytesInjective(OfferJson(o), OfferJson(p));
    SameReflexive(OfferJson(o));
    ParseOfferExact(sha, OfferJson(o), o);
    ParseOfferExact(sha, OfferJson(o), p);
  }

  // ---------- The hypothesis on JSON.parse can be met ----------

  function ReadAll(t: Text): Option<Json> {
    match JsonParser.Parse(t)
    case Some((v, rest)) => if rest == [] then Some(v) else None
    case None => None
  }

  lemma {:induction false} NormWellFormed(v: Json)
    requires WellFormed(v)
    ensures WellFormed(Norm(v))
  {
    if v.Arr? {
      forall i | 0 <= i < |v.items| ensures WellFormed(Norm(v.items[i])) {
        NormWellFormed(v.items[i]);
      }
    } else if v.Obj? {
      var nf := NormFields(v.fields);
      SortKeepsUnique(nf);
      forall j | 0 <= j < |Sort(nf)| ensures WellFormed(Sort(nf)[j].value) {
        var i := SortOrigin(nf, j);
        NormWellFormed(v.fields[i].value);
      }
    }
  }

  lemma {:induction false} NormNorm(v: Json)
    requires WellFormed(v)
    ensures Norm(Norm(v)) == Norm(v)
  {
    CanonicalizeNorm(v);
    NormPrintable(v);
    NormWellFormed(v);
    if v.Arr? {
      forall i | 0 <= i < |v.items| ensures Norm(Norm(v.items[i])) == Norm(v.items[i]) {
        NormNorm(v.items[i]);
      }
      assert NormItems(NormItems(v.items)) == NormItems(v.items);
    } else if v.Obj? {
      var s := Sort(NormFields(v.fields));
      forall j | 0 <= j < |s| ensures Norm(s[j].value) == s[j].value {
        var i := SortOrigin(NormFields(v.fields), j);
        NormNorm(v.fields[i].value);
      }
      assert NormFields(s) == s;
      SortSorted(NormFields(v.fields));
      SortFixedPoint(s);
    }
  }

  /** The parser that inverts the printer reads every canonical text back. */
  lemma ReadAllReadsBack(v: Json)
    requires WellFormed(v)
    ensures ReadsBack(ReadAll, v)
  {
    ParseCanonical(v, []);
    assert Canonicalize(v) + [] == Canonicalize(v);
    NormWellFormed(v);
    NormNorm(v);
    NormSame(v, Norm(v));
  }
}
