/** The resolver: the lookup-decide-mutate step of the identity service for
    an email only, a phone number only, or both. */
module Resolver {
  import opened Wrappers
  import opened ContactEntity
  import opened ContactStore

  /** The rows the two `findOne` lookups by email and by phone number return
      when several rows match: each hint names the row picked, when it matches. */
  datatype Choice = Choice(emailHint: nat, phoneHint: nat)

  function OtherField(f: Field): Field
  {
    match f
    case Email => Phone
    case Phone => Email
  }

  /** `handleEmailOnly` (f = Email) and `handlePhoneNumberOnly` (f = Phone): a
      known value returns a row that carries it; an unknown one creates a new
      primary that carries only it. */
  function HandleSingleField(s: Store, f: Field, v: string, hint: nat, now: int): (r: Stored)
    requires WellFormed(s)
    ensures WellFormed(r.store)
    ensures HasMatch(s, FieldIs(f, v)) ==> r.store == s && IsRow(s, r.contact) && FieldOf(r.contact, f) == Some(v)
    ensures hint in s.rows && FieldOf(s.rows[hint], f) == Some(v) ==> r.contact == s.rows[hint]
    ensures !HasMatch(s, FieldIs(f, v)) ==>
      && r.contact.id !in s.rows
      && r.store.rows == s.rows[r.contact.id := r.contact]
      && FieldOf(r.contact, f) == Some(v) && FieldOf(r.contact, OtherField(f)) == None
      && r.contact.linkPrecedence == Primary && r.contact.linkedId == None
      && r.contact.createdAt == now
  {
    match FindOne(s, FieldIs(f, v), hint)
    case Some(existing) => Stored(s, existing)
    case None =>
      match f
      case Email => Insert(s, Some(v), None, None, Some(Primary), now)
      case Phone => Insert(s, None, Some(v), None, Some(Primary), now)
  }

  /** `handleEmailOnly`: a known email returns a row holding it and writes
      nothing; a new email becomes a new primary holding no phone number. */
  function HandleEmailOnly(s: Store, email: string, hint: nat, now: int): (r: Stored)
    requires WellFormed(s)
    ensures WellFormed(r.store)
    ensures HasMatch(s, FieldIs(Email, email)) ==> r.store == s && IsRow(s, r.contact) && r.contact.email == Some(email)
    ensures !HasMatch(s, FieldIs(Email, email)) ==>
      && r.contact.id !in s.rows && r.store.rows == s.rows[r.contact.id := r.contact]
      && r.contact.email == Some(email) && r.contact.phoneNumber == None
      && r.contact.linkPrecedence == Primary && r.contact.linkedId == None && r.contact.createdAt == now
  {
    HandleSingleField(s, Email, email, hint, now)
  }

  /** `handlePhoneNumberOnly`: a known phone number returns a row holding it and
      writes nothing; a new one becomes a new primary holding no email. */
  function HandlePhoneNumberOnly(s: Store, phoneNumber: string, hint: nat, now: int): (r: Stored)
    requires WellFormed(s)
    ensures WellFormed(r.store)
    ensures HasMatch(s, FieldIs(Phone, phoneNumber)) ==> r.store == s && IsRow(s, r.contact) && r.contact.phoneNumber == Some(phoneNumber)
    ensures !HasMatch(s, FieldIs(Phone, phoneNumber)) ==>
      && r.contact.id !in s.rows && r.store.rows == s.rows[r.contact.id := r.contact]
      && r.contact.phoneNumber == Some(phoneNumber) && r.contact.email == None
      && r.contact.linkPrecedence == Primary && r.contact.linkedId == None && r.contact.createdAt == now
  {
    HandleSingleField(s, Phone, phoneNumber, hint, now)
  }

  /** The primary a matched row is resolved to: the row itself when its
      precedence is primary, otherwise the row its `linkedId` names, if stored. */
  function PrimaryOf(s: Store, c: Contact): (r: Option<Contact>)
    requires WellFormed(s) && IsRow(s, c)
    ensures r.Some? ==> IsRow(s, r.value)
    ensures c.linkPrecedence == Primary ==> r == Some(c)
    ensures c.linkPrecedence == Secondary ==>
      && (r.Some? <==> c.linkedId.Some? && c.linkedId.value in s.rows)
      && (r.Some? ==> c.linkedId == Some(r.value.id))
  {
    if c.linkPrecedence == Primary then Some(c)
    else
      match c.linkedId
      case None => None
      case Some(l) => FindById(s, l)
  }

  /** The id a new row attached to the cluster of `m` links to: `m.linkedId`
      when that is set, otherwise `m.id`. */
  function LinkTarget(m: Contact): (t: nat)
    ensures m.linkedId == Some(t) || t == m.id
    ensures !IsSet(m.linkedId) ==> t == m.id
    ensures IsSet(m.linkedId) ==> m.linkedId == Some(t)
  {
    if IsSet(m.linkedId) then m.linkedId.value else m.id
  }

  /** A new secondary carrying both values, linked to the cluster of the matched row `m`. */
  function Attach(s: Store, email: string, phoneNumber: string, m: Contact, now: int): (r: Stored)
    requires WellFormed(s)
    ensures WellFormed(r.store)
    ensures r.contact.id !in s.rows && r.store.rows == s.rows[r.contact.id := r.contact]
    ensures r.contact.email == Some(email) && r.contact.phoneNumber == Some(phoneNumber)
    ensures r.contact.linkPrecedence == Secondary && r.contact.createdAt == now
    ensures r.contact.linkedId == Some(if IsSet(m.linkedId) then m.linkedId.value else m.id)
  {
    Insert(s, Some(email), Some(phoneNumber), Some(LinkTarget(m)), Some(Secondary), now)
  }

  /** The in-memory entity the merge step saves back: unless it is the surviving
      primary, it is marked secondary and linked to `winner`. */
  function Relinked(c: Contact, winner: nat): (r: Contact)
    ensures r.id == c.id && r.email == c.email && r.phoneNumber == c.phoneNumber && r.createdAt == c.createdAt
    ensures c.id != winner ==> r.linkedId == Some(winner) && r.linkPrecedence == Secondary
    ensures c.id == winner ==> r == c
  {
    if c.id != winner then c.(linkedId := Some(winner), linkPrecedence := Secondary) else c
  }

  /** The primary that survives a merge of the clusters of `primaryE` (reached
      from the email match) and `primaryP` (reached from the phone match). */
  function Survivor(primaryE: Contact, primaryP: Contact): (w: Contact)
    ensures w == primaryE || w == primaryP
    ensures w.createdAt <= primaryE.createdAt && w.createdAt <= primaryP.createdAt
    ensures primaryE.createdAt == primaryP.createdAt ==> w == primaryP
  {
    if primaryE.createdAt < primaryP.createdAt then primaryE else primaryP
  }

  /** The primary a merge demotes: the one `Survivor` does not pick. */
  function Loser(primaryE: Contact, primaryP: Contact): (l: Contact)
    ensures l == primaryE || l == primaryP
    ensures primaryE.id != primaryP.id ==> l.id != Survivor(primaryE, primaryP).id
    ensures l.createdAt >= primaryE.createdAt || l.createdAt >= primaryP.createdAt
    ensures l.createdAt >= Survivor(primaryE, primaryP).createdAt
    ensures primaryE.createdAt == primaryP.createdAt ==> l == primaryE
  {
    if primaryE.createdAt < primaryP.createdAt then primaryP else primaryE
  }

  /** The merge of two clusters: the later-created primary is demoted under the
      survivor, the rows linked to it are re-pointed to the survivor, the two
      matched entities are saved back, and the survivor is returned. */
  function Merge(s: Store, matchE: Contact, matchP: Contact, primaryE: Contact, primaryP: Contact): (r: Stored)
    requires WellFormed(s) && IsRow(s, matchE) && IsRow(s, matchP)
    requires IsRow(s, primaryE) && IsRow(s, primaryP) && primaryE.id != primaryP.id
    ensures WellFormed(r.store)
    ensures r.store.nextId == s.nextId && r.store.rows.Keys == s.rows.Keys
    ensures r.contact == primaryE || r.contact == primaryP
    ensures r.contact.createdAt <= primaryE.createdAt && r.contact.createdAt <= primaryP.createdAt
    ensures primaryE.createdAt == primaryP.createdAt ==> r.contact == primaryP
    ensures var loser := Loser(primaryE, primaryP);
      r.store.rows[loser.id].linkedId == Some(r.contact.id) && r.store.rows[loser.id].linkPrecedence == Secondary
  {
    var winner := Survivor(primaryE, primaryP);
    var loser := Loser(primaryE, primaryP);
    var demoted := Demote(s, loser.id, winner.id);
    var repointed := Repoint(demoted, loser.id, winner.id);
    assert repointed.rows[loser.id].linkedId == Some(winner.id);
    var savedE := Save(repointed, Relinked(matchE, winner.id));
    var saved := Save(savedE, Relinked(matchP, winner.id));
    assert savedE.rows.Keys == s.rows.Keys;
    assert saved.rows[loser.id].linkedId == Some(winner.id);
    Stored(saved, winner)
  }

  /** `handleEmailAndPhoneNumber`: look up one row by email and one by phone
      number, then create a primary (no match), attach a secondary (one match),
      do nothing (both resolve to one primary) or merge (two primaries). */
  function HandleEmailAndPhoneNumber(s: Store, email: string, phoneNumber: string, choice: Choice, now: int): (r: Stored)
    requires WellFormed(s)
    ensures WellFormed(r.store)
    ensures !HasMatch(s, FieldIs(Email, email)) && !HasMatch(s, FieldIs(Phone, phoneNumber)) ==>
      && r.contact.id !in s.rows && r.store.rows == s.rows[r.contact.id := r.contact]
      && r.contact.email == Some(email) && r.contact.phoneNumber == Some(phoneNumber)
      && r.contact.linkPrecedence == Primary && r.contact.linkedId == None && r.contact.createdAt == now
    ensures HasMatch(s, FieldIs(Email, email)) != HasMatch(s, FieldIs(Phone, phoneNumber)) ==>
      && r.contact.id !in s.rows && r.store.rows == s.rows[r.contact.id := r.contact]
      && r.contact.email == Some(email) && r.contact.phoneNumber == Some(phoneNumber)
      && r.contact.linkPrecedence == Secondary && r.contact.createdAt == now
      && exists k | k in s.rows && (FieldOf(s.rows[k], Email) == Some(email) || FieldOf(s.rows[k], Phone) == Some(phoneNumber)) ::
           r.contact.linkedId == Some(LinkTarget(s.rows[k]))
    ensures HasMatch(s, FieldIs(Email, email)) && HasMatch(s, FieldIs(Phone, phoneNumber)) ==>
      r.store.nextId == s.nextId && r.store.rows.Keys == s.rows.Keys
  {
    var matchE := FindOne(s, FieldIs(Email, email), choice.emailHint);
    var matchP := FindOne(s, FieldIs(Phone, phoneNumber), choice.phoneHint);
    if matchE.Some? && matchP.Some? then
      var primaryE := PrimaryOf(s, matchE.value);
      var primaryP := PrimaryOf(s, matchP.value);
      if primaryE.Some? && primaryP.Some? && primaryE.value.id != primaryP.value.id then
        Merge(s, matchE.value, matchP.value, primaryE.value, primaryP.value)
      else
        Stored(s, matchE.value)
    else if matchE.Some? then
      Attach(s, email, phoneNumber, matchE.value, now)
    else if matchP.Some? then
      Attach(s, email, phoneNumber, matchP.value, now)
    else
      Insert(s, Some(email), Some(phoneNumber), None, Some(Primary), now)
  }
}
