/** End-to-end properties of the identity service on a valid store: the
    invariants survive every call, the response describes exactly the
    anchor's cluster, and repeating a call changes nothing. */
module Theorems {
  import opened Wrappers
  import opened ContactEntity
  import opened ContactStore
  import opened Clusters
  import opened Resolver
  import opened Aggregation
  import opened IdentifyService
  import opened Preservation

  /** Every submitted value is owned by the cluster of `anchor`. */
  predicate Covers(s: Store, input: Input, anchor: Contact)
  {
    && (Given(input.email) ==> Owns(s, Email, input.email.value, anchor))
    && (Given(input.phoneNumber) ==> Owns(s, Phone, input.phoneNumber.value, anchor))
  }

  /** Resolution on a valid store keeps the invariants, returns a stored row,
      and leaves every submitted value in that row's cluster, whichever rows
      the lookups pick. */
  lemma ResolvePreserves(s: Store, input: Input, choice: Choice, now: int)
    requires Valid(s) && ValuesClustered(s)
    ensures var r := Resolve(s, input, choice, now);
      r.Success? ==> Settled(r.value.store, r.value.contact) && Covers(r.value.store, input, r.value.contact)
  {
    if Given(input.email) && Given(input.phoneNumber) {
      BothFieldsPreserve(s, input.email.value, input.phoneNumber.value, choice, now);
    } else if Given(input.email) {
      SingleFieldPreserves(s, Email, input.email.value, choice.emailHint, now);
    } else if Given(input.phoneNumber) {
      SingleFieldPreserves(s, Phone, input.phoneNumber.value, choice.phoneHint, now);
    }
  }

  /** The store invariants hold after every call, successful or not. */
  lemma IdentifyPreservesInvariants(s: Store, input: Input, choice: Choice, now: int)
    requires Valid(s) && ValuesClustered(s)
    ensures Valid(Identify(s, input, choice, now).store)
    ensures ValuesClustered(Identify(s, input, choice, now).store)
  {
    ResolvePreserves(s, input, choice, now);
  }

  /** On a valid store the aggregation query for a stored anchor returns
      exactly the rows of the anchor's cluster. */
  lemma InClusterOfIsCluster(s: Store, anchor: Contact)
    requires Valid(s) && IsRow(s, anchor)
    ensures forall k | k in s.rows :: Holds(s.rows[k], InClusterOf(anchor)) <==> ClusterId(s.rows[k]) == ClusterId(anchor)
  {
    ClusterPrimary(s, anchor);
    forall k | k in s.rows
      ensures Holds(s.rows[k], InClusterOf(anchor)) <==> ClusterId(s.rows[k]) == ClusterId(anchor)
    {
      ClusterPrimary(s, s.rows[k]);
    }
  }

  /** Two conditions that agree on every stored row select the same rows. */
  lemma {:induction false} SelectCongruent(s: Store, w1: Where, w2: Where, from: nat)
    requires WellFormed(s)
    requires forall k | k in s.rows :: Holds(s.rows[k], w1) == Holds(s.rows[k], w2)
    ensures Select(s, w1, from) == Select(s, w2, from)
    decreases s.nextId - from
  {
    if from < s.nextId {
      SelectCongruent(s, w1, w2, from + 1);
    }
  }

  /** The gathered rows are, in some order and each once, the rows whose cluster is `p`. */
  predicate EnumeratesCluster(s: Store, rows: seq<Contact>, p: nat)
  {
    && (forall i | 0 <= i < |rows| :: IsRow(s, rows[i]) && ClusterId(rows[i]) == p)
    && (forall k | k in s.rows && ClusterId(s.rows[k]) == p :: s.rows[k] in rows)
    && (forall i, j | 0 <= i < j < |rows| :: rows[i].id != rows[j].id)
  }

  /** On a valid store the aggregation query for a stored anchor gathers its
      cluster, whose only primary row is the cluster's primary. */
  lemma GatherIsCluster(s: Store, anchor: Contact)
    requires Valid(s) && IsRow(s, anchor)
    ensures var rows := Gather(s, anchor);
      && EnumeratesCluster(s, rows, ClusterId(anchor))
      && (exists i | 0 <= i < |rows| :: rows[i].linkPrecedence == Primary)
      && (forall i | 0 <= i < |rows| && rows[i].linkPrecedence == Primary :: rows[i].id == ClusterId(anchor))
  {
    var rows := Gather(s, anchor);
    InClusterOfIsCluster(s, anchor);
    ClusterPrimary(s, anchor);
    var p := ClusterId(anchor);
    assert s.rows[p] in rows;
    forall i | 0 <= i < |rows| && rows[i].linkPrecedence == Primary
      ensures rows[i].id == p
    {
      ClusterPrimary(s, rows[i]);
    }
  }

  lemma ViewEmails(s: Store, rows: seq<Contact>, p: nat, anchor: Contact)
    requires EnumeratesCluster(s, rows, p)
    ensures forall e :: e in Project(rows, anchor).emails <==>
      e != "" && exists k | k in s.rows && ClusterId(s.rows[k]) == p :: s.rows[k].email == Some(e)
  {
    forall e | e != "" && exists k | k in s.rows && ClusterId(s.rows[k]) == p :: s.rows[k].email == Some(e)
      ensures exists i | 0 <= i < |rows| :: rows[i].email == Some(e)
    {
      var k :| k in s.rows && ClusterId(s.rows[k]) == p && s.rows[k].email == Some(e);
      assert s.rows[k] in rows;
    }
  }

  lemma ViewPhones(s: Store, rows: seq<Contact>, p: nat, anchor: Contact)
    requires EnumeratesCluster(s, rows, p)
    ensures forall q :: q in Project(rows, anchor).phoneNumbers <==>
      q != "" && exists k | k in s.rows && ClusterId(s.rows[k]) == p :: s.rows[k].phoneNumber == Some(q)
  {
    forall q | q != "" && exists k | k in s.rows && ClusterId(s.rows[k]) == p :: s.rows[k].phoneNumber == Some(q)
      ensures exists i | 0 <= i < |rows| :: rows[i].phoneNumber == Some(q)
    {
      var k :| k in s.rows && ClusterId(s.rows[k]) == p && s.rows[k].phoneNumber == Some(q);
      assert s.rows[k] in rows;
    }
  }

  lemma ViewSecondaries(s: Store, rows: seq<Contact>, p: nat, anchor: Contact)
    requires WellFormed(s) && EnumeratesCluster(s, rows, p)
    ensures forall id :: id in Project(rows, anchor).secondaryContactIds <==>
      id in s.rows && ClusterId(s.rows[id]) == p && s.rows[id].linkPrecedence == Secondary
  {
    forall id | id in s.rows && ClusterId(s.rows[id]) == p && s.rows[id].linkPrecedence == Secondary
      ensures exists i | 0 <= i < |rows| :: rows[i].linkPrecedence == Secondary && rows[i].id == id
    {
      var i :| 0 <= i < |rows| && rows[i] == s.rows[id];
      assert rows[i].id == id;
    }
  }

  /** On a valid store the view of a stored anchor is the view of its
      cluster: the cluster's primary id, every non-empty email and phone
      number of the cluster once, and the ids of all its secondaries once. */
  lemma ClusterView(s: Store, anchor: Contact)
    requires Valid(s) && IsRow(s, anchor)
    ensures var v := Project(Gather(s, anchor), anchor);
      && v.primaryContatctId == ClusterId(anchor)
      && NoDuplicates(v.emails) && NoDuplicates(v.phoneNumbers) && NoDuplicates(v.secondaryContactIds)
      && (forall e :: e in v.emails <==>
            e != "" && exists k | k in s.rows && ClusterId(s.rows[k]) == ClusterId(anchor) :: s.rows[k].email == Some(e))
      && (forall p :: p in v.phoneNumbers <==>
            p != "" && exists k | k in s.rows && ClusterId(s.rows[k]) == ClusterId(anchor) :: s.rows[k].phoneNumber == Some(p))
      && (forall id :: id in v.secondaryContactIds <==>
            id in s.rows && ClusterId(s.rows[id]) == ClusterId(anchor) && s.rows[id].linkPrecedence == Secondary)
  {
    var rows := Gather(s, anchor);
    GatherIsCluster(s, anchor);
    ViewEmails(s, rows, ClusterId(anchor), anchor);
    ViewPhones(s, rows, ClusterId(anchor), anchor);
    ViewSecondaries(s, rows, ClusterId(anchor), anchor);
  }

  /** The view of a settled anchor lists every value the anchor's cluster owns. */
  lemma ViewListsOwnedValue(t: Store, a: Contact, f: Field, value: string)
    requires Valid(t) && IsRow(t, a) && Owns(t, f, value, a) && value != ""
    ensures f == Email ==> value in Project(Gather(t, a), a).emails
    ensures f == Phone ==> value in Project(Gather(t, a), a).phoneNumbers
    ensures forall k | k in t.rows && FieldOf(t.rows[k], f) == Some(value) ::
      ClusterId(t.rows[k]) == Project(Gather(t, a), a).primaryContatctId
  {
    ClusterView(t, a);
    var k :| k in t.rows && Holds(t.rows[k], FieldIs(f, value));
    assert ClusterId(t.rows[k]) == ClusterId(a);
  }

  /** The secondary ids of a settled anchor's view are the rows linked to its primary. */
  lemma ViewSecondariesAreLinked(t: Store, a: Contact)
    requires Valid(t) && IsRow(t, a)
    ensures var v := Project(Gather(t, a), a);
      && v.primaryContatctId in t.rows
      && t.rows[v.primaryContatctId].linkPrecedence == Primary
      && forall id :: id in v.secondaryContactIds <==> id in t.rows && t.rows[id].linkedId == Some(v.primaryContatctId)
  {
    ClusterView(t, a);
    ClusterPrimary(t, a);
    forall id | id in t.rows
      ensures (ClusterId(t.rows[id]) == ClusterId(a) && t.rows[id].linkPrecedence == Secondary)
          <==> t.rows[id].linkedId == Some(ClusterId(a))
    {
      ClusterPrimary(t, t.rows[id]);
    }
  }

  /** A successful call answers with the cluster that now owns the submitted
      values: its primary, a list of emails and phone numbers that includes
      the submitted ones, and exactly the secondaries linked to that primary. */
  lemma IdentifyAnswersWithCluster(s: Store, input: Input, choice: Choice, now: int)
    requires Valid(s) && ValuesClustered(s)
    requires Given(input.email) || Given(input.phoneNumber)
    ensures var r := Identify(s, input, choice, now);
      && r.result.Success?
      && var v := r.result.value;
      && v.primaryContatctId in r.store.rows
      && r.store.rows[v.primaryContatctId].linkPrecedence == Primary
      && (Given(input.email) ==> input.email.value in v.emails)
      && (Given(input.phoneNumber) ==> input.phoneNumber.value in v.phoneNumbers)
      && (forall k | k in r.store.rows && Given(input.email) && r.store.rows[k].email == input.email ::
            ClusterId(r.store.rows[k]) == v.primaryContatctId)
      && (forall k | k in r.store.rows && Given(input.phoneNumber) && r.store.rows[k].phoneNumber == input.phoneNumber ::
            ClusterId(r.store.rows[k]) == v.primaryContatctId)
      && (forall id :: id in v.secondaryContactIds <==>
            id in r.store.rows && r.store.rows[id].linkedId == Some(v.primaryContatctId))
  {
    ResolvePreserves(s, input, choice, now);
    var resolved := Resolve(s, input, choice, now).value;
    var t := resolved.store;
    var a := resolved.contact;
    ViewSecondariesAreLinked(t, a);
    if Given(input.email) {
      ViewListsOwnedValue(t, a, Email, input.email.value);
    }
    if Given(input.phoneNumber) {
      ViewListsOwnedValue(t, a, Phone, input.phoneNumber.value);
    }
  }

  /** Anchors of one cluster have the same view. */
  lemma SameClusterSameView(s: Store, a1: Contact, a2: Contact)
    requires Valid(s) && IsRow(s, a1) && IsRow(s, a2) && ClusterId(a1) == ClusterId(a2)
    ensures Project(Gather(s, a1), a1) == Project(Gather(s, a2), a2)
  {
    InClusterOfIsCluster(s, a1);
    InClusterOfIsCluster(s, a2);
    SelectCongruent(s, InClusterOf(a1), InClusterOf(a2), 0);
    GatherIsCluster(s, a1);
    var rows := Gather(s, a1);
    assert FirstPrimary(rows).Some?;
  }

  /** Once a store is settled for a request, resolving the same request again
      writes nothing and lands in the same cluster, whichever rows the lookups pick. */
  lemma ResolveAgainIsNoOp(s: Store, input: Input, anchor: Contact, choice: Choice, now: int)
    requires Settled(s, anchor) && Covers(s, input, anchor)
    requires Given(input.email) || Given(input.phoneNumber)
    ensures var r := Resolve(s, input, choice, now);
      && r.Success? && r.value.store == s
      && IsRow(s, r.value.contact) && ClusterId(r.value.contact) == ClusterId(anchor)
  {
    if Given(input.email) && Given(input.phoneNumber) {
      var matchE := FindOne(s, FieldIs(Email, input.email.value), choice.emailHint);
      var matchP := FindOne(s, FieldIs(Phone, input.phoneNumber.value), choice.phoneHint);
      PrimaryOfIsClusterPrimary(s, matchE.value);
      PrimaryOfIsClusterPrimary(s, matchP.value);
      assert ClusterId(s.rows[matchE.value.id]) == ClusterId(anchor);
      assert ClusterId(s.rows[matchP.value.id]) == ClusterId(anchor);
    } else if Given(input.email) {
      var m := FindOne(s, FieldIs(Email, input.email.value), choice.emailHint);
      assert ClusterId(s.rows[m.value.id]) == ClusterId(anchor);
    } else {
      var m := FindOne(s, FieldIs(Phone, input.phoneNumber.value), choice.phoneHint);
      assert ClusterId(s.rows[m.value.id]) == ClusterId(anchor);
    }
  }

  /** Repeating a call with the same arguments, whatever rows the repeated
      lookups pick and whatever the clock says, creates and changes nothing
      and returns the same view. */
  lemma IdentifyIsIdempotent(s: Store, input: Input, first: Choice, second: Choice, now1: int, now2: int)
    requires Valid(s) && ValuesClustered(s)
    ensures var r1 := Identify(s, input, first, now1);
      Identify(r1.store, input, second, now2) == r1
  {
    if Given(input.email) || Given(input.phoneNumber) {
      ResolvePreserves(s, input, first, now1);
      var resolved := Resolve(s, input, first, now1).value;
      ResolveAgainIsNoOp(resolved.store, input, resolved.contact, second, now2);
      var again := Resolve(resolved.store, input, second, now2).value;
      SameClusterSameView(resolved.store, resolved.contact, again.contact);
    }
  }
}
