/** The `/api/subscriptions` route: POST validates an admin's request and
    creates one subscription offer, GET lists the offers that are not
    archived, newest first. The database table is a sequence of records;
    the identifier and creation time the database assigns come in as
    arguments. */
module Subscriptions {
  import opened Web
  import opened Seqs

  /** The fields POST destructures from the JSON body. `priceTTC` is not
      among them: a client may send one, and it is ignored. */
  datatype PostBody = PostBody(
    name: Field<string>,
    priceHT: Field<real>,
    priceTTC: Field<real>,
    fraisActivation: Field<real>,
    recurrence: Field<string>,
    dataCap: Field<real>,
    description: Field<string>,
    productSpecs: Field<string>,
    isFeatured: Field<bool>,
    isArchived: Field<bool>)

  /** A stored subscription offer. */
  datatype Subscription = Subscription(
    id: string,
    createdAt: int,
    name: string,
    priceHT: real,
    priceTTC: real,
    dataCap: real,
    description: Field<string>,
    productSpecs: Field<string>,
    fraisActivation: real,
    recurrence: string,
    isFeatured: bool,
    isArchived: bool)

  const Unauthorized: string := "Non autorisé"
  const NameRequired: string := "Le nom de l'abonnement est nécessaire"
  const PriceRequired: string := "Le prix de l'abonnement est nécessaire"
  const RecurrenceRequired: string := "La récurrence est nécessaire"
  const DataCapRequired: string := "La limite de donnée est necessaire"

  /** The early returns of POST, in source order: the session first, then
      name, priceHT, recurrence and dataCap, each by falsiness. `None`
      when the request gets through to the database. */
  function Rejection(session: Option<Session>, body: PostBody): (r: Option<Response<Subscription>>)
    ensures r.None? <==>
              IsAdmin(session) && TruthyText(body.name) && TruthyNumber(body.priceHT) &&
              TruthyText(body.recurrence) && TruthyNumber(body.dataCap)
    ensures r.Some? ==> r.value.Status? && (r.value.code == 401 <==> !IsAdmin(session))
    ensures r.Some? && r.value.code != 401 ==> r.value.code == 400
  {
    if !IsAdmin(session) then Some(Status(401, Unauthorized))
    else if !TruthyText(body.name) then Some(Status(400, NameRequired))
    else if !TruthyNumber(body.priceHT) then Some(Status(400, PriceRequired))
    else if !TruthyText(body.recurrence) then Some(Status(400, RecurrenceRequired))
    else if !TruthyNumber(body.dataCap) then Some(Status(400, DataCapRequired))
    else None
  }

  /** Each 400 names the first falsy field of the four, in order. */
  lemma FirstFalsyFieldReported(session: Option<Session>, body: PostBody)
    requires IsAdmin(session)
    ensures Rejection(session, body) == Some(Status(400, NameRequired)) <==> !TruthyText(body.name)
    ensures Rejection(session, body) == Some(Status(400, PriceRequired)) <==>
              TruthyText(body.name) && !TruthyNumber(body.priceHT)
    ensures Rejection(session, body) == Some(Status(400, RecurrenceRequired)) <==>
              TruthyText(body.name) && TruthyNumber(body.priceHT) && !TruthyText(body.recurrence)
    ensures Rejection(session, body) == Some(Status(400, DataCapRequired)) <==>
              TruthyText(body.name) && TruthyNumber(body.priceHT) && TruthyText(body.recurrence) &&
              !TruthyNumber(body.dataCap)
  {
  }

  /** Without an admin session the body is never looked at. */
  lemma UnauthorizedIgnoresBody(session: Option<Session>, a: PostBody, b: PostBody)
    requires !IsAdmin(session)
    ensures Rejection(session, a) == Rejection(session, b) == Some(Status(401, Unauthorized))
  {
  }

  /** A price or a data cap of 0 is refused as missing. */
  lemma ZeroIsMissing(session: Option<Session>, body: PostBody)
    requires IsAdmin(session) && TruthyText(body.name)
    ensures body.priceHT == Given(0.0) ==> Rejection(session, body) == Some(Status(400, PriceRequired))
    ensures TruthyNumber(body.priceHT) && TruthyText(body.recurrence) && body.dataCap == Given(0.0) ==>
              Rejection(session, body) == Some(Status(400, DataCapRequired))
  {
  }

  /** Description, specifications, activation fee and flags are optional. */
  lemma OptionalFieldsNotChecked(session: Option<Session>, body: PostBody, other: PostBody)
    requires other.name == body.name && other.priceHT == body.priceHT
    requires other.recurrence == body.recurrence && other.dataCap == body.dataCap
    ensures Rejection(session, other) == Rejection(session, body)
  {
  }

  /** `priceHT * 1.2`, in exact arithmetic. */
  function TaxIncluded(priceHT: real): real
  {
    priceHT * 1.2
  }

  /** What the ORM stores for an optional text column left out of the body. */
  function Persisted(f: Field<string>): (r: Field<string>)
    ensures r != Absent
    ensures f != Absent ==> r == f
    ensures f == Absent ==> r == Null
  {
    if f.Absent? then Null else f
  }

  /** The flag columns are non-nullable booleans: `create` refuses a
      `null` for either of them. */
  predicate FlagsStorable(body: PostBody)
  {
    body.isFeatured != Null && body.isArchived != Null
  }

  /** What the ORM stores for a boolean column sent or left out: the value
      sent, defaulting to false. */
  function Flag(f: Field<bool>): (r: bool)
    requires f != Null
    ensures r <==> f == Given(true)
  {
    f.Given? && f.value
  }

  /** The data POST hands to `subscription.create`, with the identifier and
      creation time the database adds. */
  function NewRecord(body: PostBody, id: string, createdAt: int): (r: Subscription)
    requires body.name.Given? && body.priceHT.Given? && body.recurrence.Given? && body.dataCap.Given?
    requires FlagsStorable(body)
    ensures r.id == id && r.createdAt == createdAt
    ensures r.name == body.name.value && r.priceHT == body.priceHT.value
    ensures r.recurrence == body.recurrence.value && r.dataCap == body.dataCap.value
    ensures r.fraisActivation == 0.0 <==> !TruthyNumber(body.fraisActivation)
    ensures TruthyNumber(body.fraisActivation) ==> r.fraisActivation == body.fraisActivation.value
    ensures r.priceTTC == TaxIncluded(body.priceHT.value)
    ensures r.description == Persisted(body.description) && r.productSpecs == Persisted(body.productSpecs)
    ensures r.isFeatured == Flag(body.isFeatured) && r.isArchived == Flag(body.isArchived)
  {
    Subscription(
      id, createdAt, body.name.value, body.priceHT.value, TaxIncluded(body.priceHT.value),
      body.dataCap.value, Persisted(body.description), Persisted(body.productSpecs),
      if TruthyNumber(body.fraisActivation) then body.fraisActivation.value else 0.0,
      body.recurrence.value, Flag(body.isFeatured), Flag(body.isArchived))
  }

  /** The stored tax-inclusive price depends on the tax-exclusive price
      alone; a `priceTTC` sent by the client changes nothing. */
  lemma PriceTTCFromPriceHTOnly(a: PostBody, b: PostBody, id: string, createdAt: int)
    requires a.name.Given? && a.priceHT.Given? && a.recurrence.Given? && a.dataCap.Given?
    requires b.name.Given? && b.priceHT.Given? && b.recurrence.Given? && b.dataCap.Given?
    requires FlagsStorable(a) && FlagsStorable(b)
    requires a.priceHT == b.priceHT
    ensures NewRecord(a, id, createdAt).priceTTC == NewRecord(b, id, createdAt).priceTTC
    ensures NewRecord(a.(priceTTC := b.priceTTC), id, createdAt) == NewRecord(a, id, createdAt)
  {
  }

  class SubscriptionStore {
    var rows: seq<Subscription>

    constructor (rows: seq<Subscription>)
      ensures this.rows == rows
    {
      this.rows := rows;
    }

    /** POST. `body` is `None` when `req.json()` throws, which happens
        before the session is even read, or when the destructuring of a
        `null` body throws. `stored` says whether `subscription.create`
        resolved for a body whose flags it accepts; it always rejects a
        `null` flag. */
    method Post(body: Option<PostBody>, session: Option<Session>, id: string, now: int, stored: bool)
      returns (resp: Response<Subscription>)
      modifies this
      ensures body.None? ==> resp == Status(500, InternalError) && rows == old(rows)
      ensures body.Some? && Rejection(session, body.value).Some? ==>
                resp == Rejection(session, body.value).value && rows == old(rows)
      ensures body.Some? && Rejection(session, body.value).None? && !(stored && FlagsStorable(body.value)) ==>
                resp == Status(500, InternalError) && rows == old(rows)
      ensures body.Some? && Rejection(session, body.value).None? && stored && FlagsStorable(body.value) ==>
                resp == Json(NewRecord(body.value, id, now)) &&
                rows == old(rows) + [NewRecord(body.value, id, now)]
      ensures resp.Code() == 200 <==> |rows| == |old(rows)| + 1
    {
      if body.None? {
        return Status(500, InternalError);
      }
      var b := body.value;
      if !IsAdmin(session) {
        return Status(401, Unauthorized);
      }
      if !TruthyText(b.name) {
        return Status(400, NameRequired);
      }
      if !TruthyNumber(b.priceHT) {
        return Status(400, PriceRequired);
      }
      if !TruthyText(b.recurrence) {
        return Status(400, RecurrenceRequired);
      }
      if !TruthyNumber(b.dataCap) {
        return Status(400, DataCapRequired);
      }
      if !stored || !FlagsStorable(b) {
        return Status(500, InternalError);
      }
      var created := NewRecord(b, id, now);
      rows := rows + [created];
      return Json(created);
    }
  }

  /** `searchParams.get("isFeatured")` is truthy: present and not "". */
  predicate FeaturedOnly(isFeatured: Option<string>)
  {
    isFeatured.Some? && isFeatured.value != ""
  }

  /** The `where` clause of GET. */
  predicate Listed(s: Subscription, featuredOnly: bool)
  {
    !s.isArchived && (featuredOnly ==> s.isFeatured)
  }

  /** `orderBy: { createdAt: "desc" }`. */
  predicate NewestFirst(s: seq<Subscription>)
  {
    forall i, j | 0 <= i < j < |s| :: s[i].createdAt >= s[j].createdAt
  }

  /** Each record is at least as new as the next one. */
  predicate Descending(s: seq<Subscription>)
  {
    forall i | 0 < i < |s| :: s[i - 1].createdAt >= s[i].createdAt
  }

  /** Comparing neighbours is enough: a descending list is newest first. */
  lemma {:induction false} DescendingIsNewestFirst(s: seq<Subscription>)
    requires Descending(s)
    ensures NewestFirst(s)
  {
    if |s| > 1 {
      var tail := s[1..];
      assert Descending(tail) by {
        forall i | 0 < i < |tail| ensures tail[i - 1].createdAt >= tail[i].createdAt {
          assert tail[i - 1] == s[i] && tail[i] == s[i + 1];
        }
      }
      DescendingIsNewestFirst(tail);
      forall i, j | 0 <= i < j < |s| ensures s[i].createdAt >= s[j].createdAt {
        if i > 0 {
          assert s[i] == tail[i - 1] && s[j] == tail[j - 1];
        } else if j > 1 {
          assert s[1] == tail[0] && s[j] == tail[j - 1];
        }
      }
    }
  }

  /** Dropping the newest record keeps a list descending. */
  lemma DescendingTail(s: seq<Subscription>)
    requires Descending(s) && s != []
    ensures Descending(s[1..])
  {
    var tail := s[1..];
    forall i | 0 < i < |tail| ensures tail[i - 1].createdAt >= tail[i].createdAt {
      assert tail[i - 1] == s[i] && tail[i] == s[i + 1];
    }
  }

  function Insert(x: Subscription, sorted: seq<Subscription>): (r: seq<Subscription>)
    requires Descending(sorted)
    ensures Descending(r)
    ensures |r| == |sorted| + 1 && (r[0] == x || (|sorted| > 0 && r[0] == sorted[0]))
  {
    if sorted == [] then [x]
    else if x.createdAt >= sorted[0].createdAt then [x] + sorted
    else
      DescendingTail(sorted);
      [sorted[0]] + Insert(x, sorted[1..])
  }

  /** Insertion adds exactly the one record. */
  lemma {:induction false} InsertCounts(x: Subscription, sorted: seq<Subscription>)
    requires Descending(sorted)
    ensures multiset(Insert(x, sorted)) == multiset(sorted) + multiset{x}
  {
    if sorted != [] && x.createdAt < sorted[0].createdAt {
      DescendingTail(sorted);
      InsertCounts(x, sorted[1..]);
      assert sorted == [sorted[0]] + sorted[1..];
    }
  }

  /** Insertion sort on `createdAt`, newest first; records created at the
      same time keep their table order. */
  function SortNewestFirst(s: seq<Subscription>): (r: seq<Subscription>)
    ensures Descending(r)
    ensures multiset(r) == multiset(s)
  {
    if s == [] then []
    else
      assert s == [s[0]] + s[1..];
      InsertCounts(s[0], SortNewestFirst(s[1..]));
      Insert(s[0], SortNewestFirst(s[1..]))
  }

  /** Lists with the same elements and counts have the same members. */
  lemma SameMembers(a: seq<Subscription>, b: seq<Subscription>)
    requires multiset(a) == multiset(b)
    ensures forall y :: y in a <==> y in b
  {
    forall y ensures y in a <==> y in b {
      assert y in a <==> y in multiset(a);
      assert y in b <==> y in multiset(b);
    }
  }

  /** GET: exactly the listed records, each once per copy in the table,
      newest first. */
  function List(rows: seq<Subscription>, isFeatured: Option<string>): (r: seq<Subscription>)
    ensures NewestFirst(r)
    ensures multiset(r) == multiset(Keep(rows, s => Listed(s, FeaturedOnly(isFeatured))))
    ensures forall s :: s in r <==> s in rows && !s.isArchived && (FeaturedOnly(isFeatured) ==> s.isFeatured)
  {
    var kept := Keep(rows, s => Listed(s, FeaturedOnly(isFeatured)));
    var r := SortNewestFirst(kept);
    DescendingIsNewestFirst(r);
    SameMembers(r, kept);
    r
  }

  /** Any non-empty value of the parameter restricts the list to featured
      offers, even the text "false". */
  lemma FalseTextStillFilters(rows: seq<Subscription>)
    ensures forall s | s in List(rows, Some("false")) :: s.isFeatured
  {
  }

  /** A successful POST of an offer that is not archived makes it appear
      in the unfiltered GET, and in the featured GET when it is featured. */
  lemma CreatedOfferIsListed(rows: seq<Subscription>, body: PostBody, id: string, now: int, isFeatured: Option<string>)
    requires body.name.Given? && body.priceHT.Given? && body.recurrence.Given? && body.dataCap.Given?
    requires body.isArchived != Given(true) && FlagsStorable(body)
    requires FeaturedOnly(isFeatured) ==> body.isFeatured == Given(true)
    ensures NewRecord(body, id, now) in List(rows + [NewRecord(body, id, now)], isFeatured)
  {
  }
}
