/** With a clock that never runs backwards, the primary of every cluster is
    its earliest-created row, before and after every resolve step. */
module EarliestPrimary {
  import opened Wrappers
  import opened ContactEntity
  import opened ContactStore
  import opened Clusters
  import opened Resolver
  import opened IdentifyService
  import opened Preservation

  /** A fresh row that is a primary, or that joins a cluster whose primary is
      no younger than it, keeps every primary earliest. */
  lemma AddKeepsEarliest(s: Store, s': Store, c: Contact)
    requires Valid(s) && PrimaryIsEarliest(s)
    requires c.id !in s.rows && s'.rows == s.rows[c.id := c]
    requires c.linkedId.Some? ==> c.linkedId.value in s.rows && s.rows[c.linkedId.value].createdAt <= c.createdAt
    ensures PrimaryIsEarliest(s')
  {
    forall k | k in s.rows
      ensures ClusterId(s.rows[k]) != c.id
    {
      ClusterPrimary(s, s.rows[k]);
    }
  }

  /** Merging the loser's cluster into an earlier-created winner keeps every
      primary earliest. */
  lemma AbsorbKeepsEarliest(s: Store, t: Store, l: Contact, w: Contact)
    requires Valid(s) && PrimaryIsEarliest(s) && t.rows.Keys == s.rows.Keys
    requires IsRow(s, l) && IsRow(s, w) && l.id != w.id
    requires l.linkPrecedence == Primary && w.linkPrecedence == Primary && w.createdAt <= l.createdAt
    requires forall k | k in s.rows :: t.rows[k] == Absorbed(s.rows[k], l.id, w.id)
    ensures PrimaryIsEarliest(t)
  {
    forall k | k in t.rows && ClusterId(t.rows[k]) in t.rows
      ensures t.rows[ClusterId(t.rows[k])].createdAt <= t.rows[k].createdAt
    {
      AbsorbedCluster(s, s.rows[k], l, w);
      ClusterPrimary(s, s.rows[k]);
    }
  }

  lemma SingleFieldKeepsEarliest(s: Store, f: Field, v: string, hint: nat, now: int)
    requires Valid(s) && PrimaryIsEarliest(s)
    ensures PrimaryIsEarliest(HandleSingleField(s, f, v, hint, now).store)
  {
    var r := HandleSingleField(s, f, v, hint, now);
    if !HasMatch(s, FieldIs(f, v)) {
      AddKeepsEarliest(s, r.store, r.contact);
    }
  }

  lemma BothFieldsKeepEarliest(s: Store, email: string, phoneNumber: string, choice: Choice, now: int)
    requires Valid(s) && PrimaryIsEarliest(s) && ClockAhead(s, now)
    ensures PrimaryIsEarliest(HandleEmailAndPhoneNumber(s, email, phoneNumber, choice, now).store)
  {
    var matchE := FindOne(s, FieldIs(Email, email), choice.emailHint);
    var matchP := FindOne(s, FieldIs(Phone, phoneNumber), choice.phoneHint);
    var r := HandleEmailAndPhoneNumber(s, email, phoneNumber, choice, now);
    if matchE.Some? && matchP.Some? {
      PrimaryOfIsClusterPrimary(s, matchE.value);
      PrimaryOfIsClusterPrimary(s, matchP.value);
      var primaryE := PrimaryOf(s, matchE.value).value;
      var primaryP := PrimaryOf(s, matchP.value).value;
      if primaryE.id != primaryP.id {
        ClusterPrimary(s, matchE.value);
        ClusterPrimary(s, matchP.value);
        MergeAbsorbsLoser(s, matchE.value, matchP.value, primaryE, primaryP);
        AbsorbKeepsEarliest(s, r.store, Loser(primaryE, primaryP), Survivor(primaryE, primaryP));
      }
    } else if matchE.Some? || matchP.Some? {
      var m := if matchE.Some? then matchE.value else matchP.value;
      ClusterPrimary(s, m);
      assert r.contact.linkedId == Some(ClusterId(m));
      AddKeepsEarliest(s, r.store, r.contact);
    } else {
      AddKeepsEarliest(s, r.store, r.contact);
    }
  }

  /** With a clock that reads no earlier than any stored row, every call keeps
      each cluster's primary its earliest-created row; in particular a merge
      never promotes a row younger than one it absorbs. */
  lemma IdentifyKeepsPrimaryEarliest(s: Store, input: Input, choice: Choice, now: int)
    requires Valid(s) && PrimaryIsEarliest(s) && ClockAhead(s, now)
    ensures PrimaryIsEarliest(Identify(s, input, choice, now).store)
  {
    if Given(input.email) && Given(input.phoneNumber) {
      BothFieldsKeepEarliest(s, input.email.value, input.phoneNumber.value, choice, now);
    } else if Given(input.email) {
      SingleFieldKeepsEarliest(s, Email, input.email.value, choice.emailHint, now);
    } else if Given(input.phoneNumber) {
      SingleFieldKeepsEarliest(s, Phone, input.phoneNumber.value, choice.phoneHint, now);
    }
  }
}
