/** The `/api/users/id` route: DELETE removes the signed-in user, PATCH
    updates the signed-in user's profile and then mirrors it on the
    user's Stripe customer. The user table is a map from identifier to
    record; the JSON parser and the Stripe call are outside, and their
    outcomes come in as arguments. */
module Users {
  import opened Web

  /** A stored user. Only the profile columns PATCH writes are modelled
      one by one; `email` and `role` stand for the columns it leaves alone. */
  datatype User = User(
    id: string,
    email: string,
    role: string,
    name: Field<string>,
    surname: Field<string>,
    phone: Field<string>,
    adresse: Field<string>,
    tva: Field<string>,
    raisonSocial: Field<string>,
    isPro: Field<bool>,
    stripeCustomerId: Field<string>)

  /** The fields PATCH destructures from the JSON body. */
  datatype PatchBody = PatchBody(
    name: Field<string>,
    surname: Field<string>,
    phone: Field<string>,
    adresse: Field<string>,
    tva: Field<string>,
    raisonSocial: Field<string>,
    isPro: Field<bool>)

  /** The fields read from the parsed `adresse`. */
  datatype Address = Address(
    line1: Field<string>,
    line2: Field<string>,
    city: Field<string>,
    state: Field<string>,
    postalCode: Field<string>,
    country: Field<string>)

  /** What `JSON.parse(adresse)` gives: it throws, it gives `null` (whose
      fields cannot be read), or it gives a value whose fields can be read
      (missing ones are `undefined`). */
  datatype ParsedAddress = Malformed | NullAddress | Readable(address: Address)

  /** `JSON.parse(adresse)`: `undefined` does not parse and `null` parses
      to `null`; for a text, `parsedText` is the parser's answer. */
  function ParseAdresse(adresse: Field<string>, parsedText: ParsedAddress): (r: ParsedAddress)
    ensures adresse == Absent ==> r == Malformed
    ensures adresse == Null ==> r == NullAddress
    ensures adresse.Given? ==> r == parsedText
  {
    match adresse
    case Absent => Malformed
    case Null => NullAddress
    case Given(_) => parsedText
  }

  /** The arguments of `stripe.customers.update`. */
  datatype CustomerUpdate = CustomerUpdate(
    customerId: string,
    name: string,
    taxExempt: string,
    address: Address,
    preferredLocales: seq<string>,
    tva: Field<string>)

  const Reconnect: string := "Erreur, essayer de vous reconnecter"
  const UserNameRequired: string := "Le nom de l'utilisateur est nécessaire"

  /** One column of an ORM `update`: `undefined` leaves it as it is. */
  function Assign<T>(current: Field<T>, given: Field<T>): Field<T>
  {
    if given.Absent? then current else given
  }

  /** The record after `user.update` with the seven profile fields. */
  function Updated(u: User, body: PatchBody): (r: User)
    ensures r.(name := u.name, surname := u.surname, phone := u.phone, adresse := u.adresse,
               tva := u.tva, raisonSocial := u.raisonSocial, isPro := u.isPro) == u
    ensures body.name != Absent ==> r.name == body.name
    ensures body.surname != Absent ==> r.surname == body.surname
    ensures body.phone != Absent ==> r.phone == body.phone
    ensures body.adresse != Absent ==> r.adresse == body.adresse
    ensures body.tva != Absent ==> r.tva == body.tva
    ensures body.raisonSocial != Absent ==> r.raisonSocial == body.raisonSocial
    ensures body.isPro != Absent ==> r.isPro == body.isPro
    ensures body.name == Absent ==> r.name == u.name
    ensures body.surname == Absent ==> r.surname == u.surname
    ensures body.phone == Absent ==> r.phone == u.phone
    ensures body.adresse == Absent ==> r.adresse == u.adresse
    ensures body.tva == Absent ==> r.tva == u.tva
    ensures body.raisonSocial == Absent ==> r.raisonSocial == u.raisonSocial
    ensures body.isPro == Absent ==> r.isPro == u.isPro
    ensures body == PatchBody(Absent, Absent, Absent, Absent, Absent, Absent, Absent) ==> r == u
  {
    u.(name := Assign(u.name, body.name),
       surname := Assign(u.surname, body.surname),
       phone := Assign(u.phone, body.phone),
       adresse := Assign(u.adresse, body.adresse),
       tva := Assign(u.tva, body.tva),
       raisonSocial := Assign(u.raisonSocial, body.raisonSocial),
       isPro := Assign(u.isPro, body.isPro))
  }

  /** Applying the same update twice is applying it once. */
  lemma UpdateIdempotent(u: User, body: PatchBody)
    ensures Updated(Updated(u, body), body) == Updated(u, body)
  {
  }

  /** `raisonSocial ? raisonSocial : name + " " + surname`: never empty,
      the company name when there is one, otherwise the person's name and
      surname around a space. */
  function CustomerName(body: PatchBody): (r: string)
    ensures |r| > 0
    ensures TruthyText(body.raisonSocial) ==> r == body.raisonSocial.value
    ensures !TruthyText(body.raisonSocial) && TruthyText(body.name) ==>
              var n := body.name.value;
              |r| > |n| && r[..|n| + 1] == n + " " && r[|n| + 1..] == Text(body.surname)
  {
    if TruthyText(body.raisonSocial) then body.raisonSocial.value
    else Text(body.name) + " " + Text(body.surname)
  }

  /** A missing surname is spelled out as "undefined" in the customer name. */
  lemma MissingSurnameSpelledUndefined(body: PatchBody)
    requires !TruthyText(body.raisonSocial) && body.surname == Absent && body.name.Given?
    ensures CustomerName(body) == body.name.value + " undefined"
  {
  }

  /** `isPro ? "exempt" : "none"`: one of two tax statuses, "exempt" for
      professionals only. */
  function TaxExempt(isPro: Field<bool>): (r: string)
    ensures r == "exempt" || r == "none"
    ensures r == "exempt" <==> isPro == Given(true)
  {
    if TruthyFlag(isPro) then "exempt" else "none"
  }

  /** `[fullAdress.country ? fullAdress.country : "FR"]`: exactly one
      non-empty locale, France when the address has no country. */
  function PreferredLocales(country: Field<string>): (r: seq<string>)
    ensures |r| == 1 && r[0] != ""
    ensures r == ["FR"] <==> !TruthyText(country) || country.value == "FR"
  {
    [if TruthyText(country) then country.value else "FR"]
  }

  /** The customer update PATCH sends, built from the body (not from the
      stored record) and the parsed address. */
  function CustomerFields(customerId: string, body: PatchBody, address: Address): (r: CustomerUpdate)
    ensures r.customerId == customerId && r.address == address && r.tva == body.tva
    ensures |r.name| > 0 && (TruthyText(body.raisonSocial) ==> r.name == body.raisonSocial.value)
    ensures r.taxExempt == "exempt" <==> body.isPro == Given(true)
    ensures |r.preferredLocales| == 1 && (TruthyText(address.country) ==> r.preferredLocales == [address.country.value])
    ensures r.name == CustomerName(body) && r.taxExempt == TaxExempt(body.isPro)
    ensures r.preferredLocales == PreferredLocales(address.country)
  {
    CustomerUpdate(customerId, CustomerName(body), TaxExempt(body.isPro), address,
                   PreferredLocales(address.country), body.tva)
  }

  class UserTable {
    var users: map<string, User>

    /** Every record sits under its own identifier. */
    ghost predicate Valid()
      reads this
    {
      forall k | k in users :: users[k].id == k
    }

    constructor (users: map<string, User>)
      requires forall k | k in users :: users[k].id == k
      ensures Valid() && this.users == users
    {
      this.users := users;
    }

    /** DELETE: `deleteMany` on the session user's identifier; the
        response carries the number of records removed. `succeeded` says
        whether `deleteMany` resolved. */
    method Delete(session: Option<Session>, succeeded: bool) returns (resp: Response<nat>)
      requires Valid()
      modifies this
      ensures Valid()
      ensures !HasUserId(session) ==> resp == Status(401, Reconnect) && users == old(users)
      ensures HasUserId(session) && !succeeded ==> resp == Status(500, InternalError) && users == old(users)
      ensures HasUserId(session) && succeeded ==>
                var sid := session.value.user.value.id;
                (forall k :: k in users <==> k in old(users) && old(users)[k].id != sid) &&
                resp == Json(if sid in old(users) then 1 else 0)
      ensures forall k | k in users :: k in old(users) && users[k] == old(users)[k]
    {
      if !HasUserId(session) {
        return Status(401, Reconnect);
      }
      if !succeeded {
        return Status(500, InternalError);
      }
      var sid := session.value.user.value.id;
      var count := if sid in users then 1 else 0;
      users := users - {sid};
      return Json(count);
    }

    /** PATCH. `body` is `None` when `req.json()` throws or the body is
        `null`, whose destructuring throws; `parsedText` is
        the parser's answer for a text `adresse`; `stripeOk` says whether
        the Stripe call returned. The update is written before the address
        is parsed and before the customer identifier is checked, so a 500
        for the address or a 400 for a missing customer still leaves the
        record updated. */
    method Patch(body: Option<PatchBody>, session: Option<Session>, parsedText: ParsedAddress, stripeOk: bool)
      returns (resp: Response<User>, sent: Option<CustomerUpdate>)
      requires Valid()
      modifies this
      ensures Valid()
      ensures body.None? ==> resp == Status(500, InternalError) && users == old(users) && sent == None
      ensures body.Some? && !HasUserId(session) ==>
                resp == Status(401, Reconnect) && users == old(users) && sent == None
      ensures body.Some? && HasUserId(session) && !TruthyText(body.value.name) ==>
                resp == Status(400, UserNameRequired) && users == old(users) && sent == None
      ensures body.Some? && HasUserId(session) && TruthyText(body.value.name) ==>
                var sid := session.value.user.value.id;
                (sid !in old(users) ==> resp == Status(500, InternalError) && users == old(users) && sent == None) &&
                (sid in old(users) ==>
                  var user := Updated(old(users)[sid], body.value);
                  var parsed := ParseAdresse(body.value.adresse, parsedText);
                  var customer := user.stripeCustomerId;
                  users == old(users)[sid := user] &&
                  (parsed.Malformed? ==> resp == Status(500, InternalError) && sent == None) &&
                  (!parsed.Malformed? && !TruthyText(customer) ==> resp == Status(400, Reconnect) && sent == None) &&
                  (parsed.NullAddress? && TruthyText(customer) ==> resp == Status(500, InternalError) && sent == None) &&
                  (parsed.Readable? && TruthyText(customer) ==>
                    sent == Some(CustomerFields(customer.value, body.value, parsed.address)) &&
                    resp == if stripeOk then Json(user) else Status(500, InternalError)))
    {
      sent := None;
      if body.None? {
        return Status(500, InternalError), None;
      }
      var b := body.value;
      if !HasUserId(session) {
        return Status(401, Reconnect), None;
      }
      if !TruthyText(b.name) {
        return Status(400, UserNameRequired), None;
      }
      var sid := session.value.user.value.id;
      if sid !in users {
        return Status(500, InternalError), None;
      }
      var user := Updated(users[sid], b);
      users := users[sid := user];
      var fullAdress := ParseAdresse(b.adresse, parsedText);
      if fullAdress.Malformed? {
        return Status(500, InternalError), None;
      }
      if !TruthyText(user.stripeCustomerId) {
        return Status(400, Reconnect), None;
      }
      if fullAdress.NullAddress? {
        return Status(500, InternalError), None;
      }
      sent := Some(CustomerFields(user.stripeCustomerId.value, b, fullAdress.address));
      if !stripeOk {
        return Status(500, InternalError), sent;
      }
      return Json(user), sent;
    }
  }
}
