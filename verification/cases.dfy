/** The four outcomes of a request carrying both an email and a phone number,
    on a valid store, stated in terms of the clusters the two values live in
    rather than of the rows the lookups happen to pick. */
module BothFieldsCases {
  import opened Wrappers
  import opened ContactEntity
  import opened ContactStore
  import opened Clusters
  import opened Resolver
  import opened Preservation

  /** Both values are already in one cluster: nothing is written, and the
      row the email lookup picked is returned. */
  lemma SameClusterWritesNothing(s: Store, email: string, phoneNumber: string, choice: Choice, now: int, j: nat, k: nat)
    requires Valid(s) && ValuesClustered(s)
    requires j in s.rows && s.rows[j].email == Some(email)
    requires k in s.rows && s.rows[k].phoneNumber == Some(phoneNumber)
    requires ClusterId(s.rows[j]) == ClusterId(s.rows[k])
    ensures var r := HandleEmailAndPhoneNumber(s, email, phoneNumber, choice, now);
      && r.store == s && IsRow(s, r.contact) && r.contact.email == Some(email)
      && (choice.emailHint in s.rows && s.rows[choice.emailHint].email == Some(email) ==> r.contact == s.rows[choice.emailHint])
  {
    assert Holds(s.rows[j], FieldIs(Email, email)) && Holds(s.rows[k], FieldIs(Phone, phoneNumber));
    var matchE := FindOne(s, FieldIs(Email, email), choice.emailHint).value;
    var matchP := FindOne(s, FieldIs(Phone, phoneNumber), choice.phoneHint).value;
    PrimaryOfIsClusterPrimary(s, matchE);
    PrimaryOfIsClusterPrimary(s, matchP);
    assert FieldOf(s.rows[j], Email) == FieldOf(s.rows[matchE.id], Email);
    assert FieldOf(s.rows[k], Phone) == FieldOf(s.rows[matchP.id], Phone);
  }

  /** Exactly one value is known: one new secondary carrying both values is
      added to the cluster of the rows holding the known value, whichever of
      them the lookup picked, and no stored row changes. */
  lemma OneKnownValueAttaches(s: Store, email: string, phoneNumber: string, choice: Choice, now: int, f: Field, m: nat)
    requires Valid(s) && ValuesClustered(s)
    requires m in s.rows
    requires f == Email ==> s.rows[m].email == Some(email) && !HasMatch(s, FieldIs(Phone, phoneNumber))
    requires f == Phone ==> s.rows[m].phoneNumber == Some(phoneNumber) && !HasMatch(s, FieldIs(Email, email))
    ensures var r := HandleEmailAndPhoneNumber(s, email, phoneNumber, choice, now);
      && r.contact.id !in s.rows && r.store.rows == s.rows[r.contact.id := r.contact]
      && r.contact.email == Some(email) && r.contact.phoneNumber == Some(phoneNumber)
      && r.contact.linkPrecedence == Secondary
      && r.contact.linkedId == Some(ClusterId(s.rows[m]))
      && s.rows[ClusterId(s.rows[m])].linkPrecedence == Primary
  {
    var r := HandleEmailAndPhoneNumber(s, email, phoneNumber, choice, now);
    assert Holds(s.rows[m], FieldIs(f, FieldOf(s.rows[m], f).value));
    BothFieldsPreserve(s, email, phoneNumber, choice, now);
    ClusterPrimary(s, s.rows[m]);
    assert r.store.rows[m] == s.rows[m];
    assert FieldOf(r.store.rows[m], f) == FieldOf(r.contact, f);
    assert ClusterId(r.contact) == ClusterId(s.rows[m]);
  }

  /** The two values live in different clusters: the clusters merge. The
      primary created strictly earlier survives (on equal timestamps, the
      primary of the phone number's cluster); the other primary becomes its
      secondary; every row linked to the demoted primary is linked to the
      survivor; no other row changes, nothing is created, and the survivor
      is returned. */
  lemma TwoClustersMerge(s: Store, email: string, phoneNumber: string, choice: Choice, now: int, j: nat, k: nat)
    requires Valid(s) && ValuesClustered(s)
    requires j in s.rows && s.rows[j].email == Some(email)
    requires k in s.rows && s.rows[k].phoneNumber == Some(phoneNumber)
    requires ClusterId(s.rows[j]) != ClusterId(s.rows[k])
    ensures ClusterId(s.rows[j]) in s.rows && ClusterId(s.rows[k]) in s.rows
    ensures var primaryE := s.rows[ClusterId(s.rows[j])];
      var primaryP := s.rows[ClusterId(s.rows[k])];
      var winner := if primaryE.createdAt < primaryP.createdAt then primaryE else primaryP;
      var loser := if primaryE.createdAt < primaryP.createdAt then primaryP else primaryE;
      var r := HandleEmailAndPhoneNumber(s, email, phoneNumber, choice, now);
      && r.contact == winner
      && r.store.nextId == s.nextId && r.store.rows.Keys == s.rows.Keys
      && r.store.rows[loser.id] == loser.(linkedId := Some(winner.id), linkPrecedence := Secondary)
      && (forall x | x in s.rows && s.rows[x].linkedId == Some(loser.id) ::
            r.store.rows[x] == s.rows[x].(linkedId := Some(winner.id)))
      && (forall x | x in s.rows && x != loser.id && s.rows[x].linkedId != Some(loser.id) ::
            r.store.rows[x] == s.rows[x])
  {
    ClusterPrimary(s, s.rows[j]);
    ClusterPrimary(s, s.rows[k]);
    var primaryE := s.rows[ClusterId(s.rows[j])];
    var primaryP := s.rows[ClusterId(s.rows[k])];
    var matchE, matchP := MergeCaseRoutes(s, email, phoneNumber, choice, now, j, k);
    MergeAbsorbsLoser(s, matchE, matchP, primaryE, primaryP);
    var w := Survivor(primaryE, primaryP);
    var l := Loser(primaryE, primaryP);
    AbsorbedSpelledOut(s, Merge(s, matchE, matchP, primaryE, primaryP).store, l, w);
  }

  /** In the merge case the handler merges the clusters of the two values,
      whichever rows the lookups picked. */
  lemma MergeCaseRoutes(s: Store, email: string, phoneNumber: string, choice: Choice, now: int, j: nat, k: nat)
      returns (matchE: Contact, matchP: Contact)
    requires Valid(s) && ValuesClustered(s)
    requires j in s.rows && s.rows[j].email == Some(email)
    requires k in s.rows && s.rows[k].phoneNumber == Some(phoneNumber)
    requires ClusterId(s.rows[j]) != ClusterId(s.rows[k])
    ensures ClusterId(s.rows[j]) in s.rows && ClusterId(s.rows[k]) in s.rows
    ensures IsRow(s, matchE) && IsRow(s, matchP)
    ensures PrimaryOf(s, matchE) == Some(s.rows[ClusterId(s.rows[j])])
    ensures PrimaryOf(s, matchP) == Some(s.rows[ClusterId(s.rows[k])])
    ensures HandleEmailAndPhoneNumber(s, email, phoneNumber, choice, now)
      == Merge(s, matchE, matchP, s.rows[ClusterId(s.rows[j])], s.rows[ClusterId(s.rows[k])])
  {
    ClusterPrimary(s, s.rows[j]);
    ClusterPrimary(s, s.rows[k]);
    assert Holds(s.rows[j], FieldIs(Email, email)) && Holds(s.rows[k], FieldIs(Phone, phoneNumber));
    matchE := FindOne(s, FieldIs(Email, email), choice.emailHint).value;
    matchP := FindOne(s, FieldIs(Phone, phoneNumber), choice.phoneHint).value;
    PrimaryOfIsClusterPrimary(s, matchE);
    PrimaryOfIsClusterPrimary(s, matchP);
    assert FieldOf(s.rows[j], Email) == FieldOf(s.rows[matchE.id], Email);
    assert FieldOf(s.rows[k], Phone) == FieldOf(s.rows[matchP.id], Phone);
  }

  /** The rows `Absorbed` produces, field by field: the loser demoted under the
      winner, its secondaries re-pointed, every other row as it was. */
  lemma AbsorbedSpelledOut(s: Store, t: Store, l: Contact, w: Contact)
    requires Valid(s) && IsRow(s, l) && l.linkPrecedence == Primary
    requires t.rows.Keys == s.rows.Keys
    requires forall x | x in s.rows :: t.rows[x] == Absorbed(s.rows[x], l.id, w.id)
    ensures t.rows[l.id] == l.(linkedId := Some(w.id), linkPrecedence := Secondary)
    ensures forall x | x in s.rows && s.rows[x].linkedId == Some(l.id) :: t.rows[x] == s.rows[x].(linkedId := Some(w.id))
    ensures forall x | x in s.rows && x != l.id && s.rows[x].linkedId != Some(l.id) :: t.rows[x] == s.rows[x]
  {
  }
}
