/** What every call does to the rows already stored, on a store that only
    satisfies the structural invariant `Valid`: the invariant survives, no
    row is deleted, a secondary never becomes primary again, and a row's
    email, phone number and creation time never change. Nothing here needs
    `ValuesClustered`, so the results also cover tables where one value was
    stored twice by requests the service did not serialise. */
module Lifecycle {
  import opened Wrappers
  import opened ContactEntity
  import opened ContactStore
  import opened Clusters
  import opened Resolver
  import opened IdentifyService
  import opened Preservation

  /** Row `after` is row `before` at a later time: same id, same values,
      same creation time, and not promoted back from secondary. */
  predicate Kept(before: Contact, after: Contact)
  {
    && after.id == before.id
    && after.email == before.email
    && after.phoneNumber == before.phoneNumber
    && after.createdAt == before.createdAt
    && (before.linkPrecedence == Secondary ==> after.linkPrecedence == Secondary)
  }

  /** Store `t` is store `s` at a later time: every stored row is still
      stored and kept, and the id sequence has not gone back. */
  predicate Evolves(s: Store, t: Store)
  {
    && t.nextId >= s.nextId
    && forall k | k in s.rows :: k in t.rows && Kept(s.rows[k], t.rows[k])
  }

  /** On a valid store the id a new secondary links to is the primary of the
      matched row's cluster, so links never form chains. */
  lemma LinkTargetIsPrimary(s: Store, m: Contact)
    requires Valid(s) && IsRow(s, m)
    ensures LinkTarget(m) == ClusterId(m)
    ensures LinkTarget(m) in s.rows && s.rows[LinkTarget(m)].linkPrecedence == Primary
  {
    ClusterPrimary(s, m);
  }

  /** A single-field request keeps a valid store valid and keeps its history. */
  lemma SingleFieldKeepsValid(s: Store, f: Field, v: string, hint: nat, now: int)
    requires Valid(s)
    ensures var r := HandleSingleField(s, f, v, hint, now);
      Valid(r.store) && IsRow(r.store, r.contact) && Evolves(s, r.store)
  {
    var r := HandleSingleField(s, f, v, hint, now);
    if !HasMatch(s, FieldIs(f, v)) {
      AddKeepsValid(s, r.store, r.contact);
    }
  }

  /** Attaching a secondary to the cluster of a stored row keeps a valid
      store valid and keeps its history. */
  lemma AttachKeepsValid(s: Store, email: string, phoneNumber: string, m: Contact, now: int)
    requires Valid(s) && IsRow(s, m)
    ensures var r := Attach(s, email, phoneNumber, m, now);
      Valid(r.store) && IsRow(r.store, r.contact) && Evolves(s, r.store)
  {
    var r := Attach(s, email, phoneNumber, m, now);
    LinkTargetIsPrimary(s, m);
    AddKeepsValid(s, r.store, r.contact);
  }

  /** The merge keeps a valid store valid and keeps its history: only
      precedence and links change, and only towards secondary. */
  lemma MergeKeepsValid(s: Store, matchE: Contact, matchP: Contact, primaryE: Contact, primaryP: Contact)
    requires Valid(s) && IsRow(s, matchE) && IsRow(s, matchP)
    requires PrimaryOf(s, matchE) == Some(primaryE) && PrimaryOf(s, matchP) == Some(primaryP)
    requires primaryE.id != primaryP.id
    ensures var r := Merge(s, matchE, matchP, primaryE, primaryP);
      Valid(r.store) && IsRow(r.store, r.contact) && Evolves(s, r.store)
  {
    MergeAbsorbsLoser(s, matchE, matchP, primaryE, primaryP);
    PrimaryOfIsClusterPrimary(s, matchE);
    PrimaryOfIsClusterPrimary(s, matchP);
    var w := Survivor(primaryE, primaryP);
    var l := Loser(primaryE, primaryP);
    var t := Merge(s, matchE, matchP, primaryE, primaryP).store;
    AbsorbKeepsValid(s, t, l, w);
  }

  /** The combined handler keeps a valid store valid and keeps its history,
      whatever rows the lookups pick. */
  lemma BothFieldsKeepValid(s: Store, email: string, phoneNumber: string, choice: Choice, now: int)
    requires Valid(s)
    ensures var r := HandleEmailAndPhoneNumber(s, email, phoneNumber, choice, now);
      Valid(r.store) && IsRow(r.store, r.contact) && Evolves(s, r.store)
  {
    var matchE := FindOne(s, FieldIs(Email, email), choice.emailHint);
    var matchP := FindOne(s, FieldIs(Phone, phoneNumber), choice.phoneHint);
    if matchE.Some? && matchP.Some? {
      PrimaryOfIsClusterPrimary(s, matchE.value);
      PrimaryOfIsClusterPrimary(s, matchP.value);
      var primaryE := PrimaryOf(s, matchE.value);
      var primaryP := PrimaryOf(s, matchP.value);
      if primaryE.value.id != primaryP.value.id {
        MergeKeepsValid(s, matchE.value, matchP.value, primaryE.value, primaryP.value);
      }
    } else if matchE.Some? {
      AttachKeepsValid(s, email, phoneNumber, matchE.value, now);
    } else if matchP.Some? {
      AttachKeepsValid(s, email, phoneNumber, matchP.value, now);
    } else {
      var r := Insert(s, Some(email), Some(phoneNumber), None, Some(Primary), now);
      AddKeepsValid(s, r.store, r.contact);
    }
  }

  /** Every resolution on a valid store keeps it valid and keeps its history. */
  lemma ResolveKeepsValid(s: Store, input: Input, choice: Choice, now: int)
    requires Valid(s)
    ensures var r := Resolve(s, input, choice, now);
      r.Success? ==> Valid(r.value.store) && IsRow(r.value.store, r.value.contact) && Evolves(s, r.value.store)
  {
    if Given(input.email) && Given(input.phoneNumber) {
      BothFieldsKeepValid(s, input.email.value, input.phoneNumber.value, choice, now);
    } else if Given(input.email) {
      SingleFieldKeepsValid(s, Email, input.email.value, choice.emailHint, now);
    } else if Given(input.phoneNumber) {
      SingleFieldKeepsValid(s, Phone, input.phoneNumber.value, choice.phoneHint, now);
    }
  }

  /** The structural invariant alone survives every call: each primary is
      unlinked and each secondary links to a stored primary afterwards. */
  lemma IdentifyPreservesValid(s: Store, input: Input, choice: Choice, now: int)
    requires Valid(s)
    ensures Valid(Identify(s, input, choice, now).store)
  {
    ResolveKeepsValid(s, input, choice, now);
  }

  /** No call deletes a row, promotes a secondary back to primary, or changes
      a stored row's email, phone number or creation time. */
  lemma IdentifyKeepsHistory(s: Store, input: Input, choice: Choice, now: int)
    requires Valid(s)
    ensures var t := Identify(s, input, choice, now).store;
      && t.nextId >= s.nextId
      && forall k | k in s.rows ::
           && k in t.rows
           && t.rows[k].email == s.rows[k].email
           && t.rows[k].phoneNumber == s.rows[k].phoneNumber
           && t.rows[k].createdAt == s.rows[k].createdAt
           && (s.rows[k].linkPrecedence == Secondary ==> t.rows[k].linkPrecedence == Secondary)
  {
    ResolveKeepsValid(s, input, choice, now);
  }
}
