/** Every resolve step keeps the store invariant, keeps each email and each
    phone number inside one cluster, and leaves the submitted values owned by
    the cluster of the returned anchor. */
module Preservation {
  import opened Wrappers
  import opened ContactEntity
  import opened ContactStore
  import opened Clusters
  import opened Resolver

  /** What a resolve step promises on a valid store: the invariants still hold
      and the anchor is a stored row. */
  predicate Settled(s: Store, anchor: Contact)
  {
    Valid(s) && ValuesClustered(s) && IsRow(s, anchor)
  }

  /** A fresh row added to a valid store keeps it valid when it is either an
      unlinked primary or a secondary linked to a stored primary. */
  lemma AddKeepsValid(s: Store, s': Store, c: Contact)
    requires Valid(s) && WellFormed(s')
    requires c.id !in s.rows && s'.rows == s.rows[c.id := c]
    requires || (c.linkPrecedence == Primary && c.linkedId.None?)
             || (c.linkPrecedence == Secondary && c.linkedId.Some? && c.linkedId.value in s.rows
                 && s.rows[c.linkedId.value].linkPrecedence == Primary)
    ensures Valid(s')
  {
  }

  /** The single-field handler keeps the invariants, and afterwards every row
      carrying the submitted value is in the anchor's cluster. */
  lemma SingleFieldPreserves(s: Store, f: Field, v: string, hint: nat, now: int)
    requires Valid(s) && ValuesClustered(s)
    ensures var r := HandleSingleField(s, f, v, hint, now);
      Settled(r.store, r.contact) && Owns(r.store, f, v, r.contact)
  {
    var r := HandleSingleField(s, f, v, hint, now);
    if HasMatch(s, FieldIs(f, v)) {
      assert r.store == s;
      forall k | k in s.rows && FieldOf(s.rows[k], f) == Some(v)
        ensures ClusterId(s.rows[k]) == ClusterId(r.contact)
      {
        assert FieldOf(s.rows[r.contact.id], f) == Some(v);
      }
    } else {
      var c := r.contact;
      AddKeepsValid(s, r.store, c);
      assert r.store.rows[c.id] == c;
      assert HasMatch(r.store, FieldIs(f, v));
      forall k | k in r.store.rows && FieldOf(r.store.rows[k], f) == Some(v)
        ensures k == c.id
      {
        if k != c.id {
          assert k in s.rows && Holds(s.rows[k], FieldIs(f, v));
          assert false;
        }
      }
      NewValuesClustered(s, r.store, c);
    }
  }

  /** A fresh row whose values are either new to the store or already in the
      cluster it joins keeps values clustered. */
  lemma NewValuesClustered(s: Store, s': Store, c: Contact)
    requires ValuesClustered(s)
    requires c.id !in s.rows && s'.rows == s.rows[c.id := c]
    requires forall f, k | k in s.rows && FieldOf(c, f).Some? && FieldOf(s.rows[k], f) == FieldOf(c, f) ::
      ClusterId(s.rows[k]) == ClusterId(c)
    ensures ValuesClustered(s')
  {
  }

  /** On a valid store a matched row resolves to the primary of its cluster. */
  lemma PrimaryOfIsClusterPrimary(s: Store, c: Contact)
    requires Valid(s) && IsRow(s, c)
    ensures ClusterId(c) in s.rows
    ensures PrimaryOf(s, c) == Some(s.rows[ClusterId(c)])
  {
    ClusterPrimary(s, c);
  }

  /** A row of the store after the merge of cluster `loser` into cluster `winner`. */
  function Absorbed(c: Contact, loser: nat, winner: nat): Contact
  {
    if c.id == loser then c.(linkedId := Some(winner), linkPrecedence := Secondary)
    else if c.linkedId == Some(loser) then c.(linkedId := Some(winner))
    else c
  }

  /** On a valid store, the two updates of the merge demote the loser and
      re-point its secondaries: exactly the rows `Absorbed` rewrites. */
  lemma UpdatesAbsorbLoser(s: Store, l: Contact, w: Contact)
    requires Valid(s) && IsRow(s, l) && IsRow(s, w) && l.id != w.id
    requires l.linkPrecedence == Primary && w.linkPrecedence == Primary
    ensures var r := Repoint(Demote(s, l.id, w.id), l.id, w.id);
      && r.nextId == s.nextId && r.rows.Keys == s.rows.Keys
      && forall k | k in s.rows :: r.rows[k] == Absorbed(s.rows[k], l.id, w.id)
  {
    var demoted := Demote(s, l.id, w.id);
    var repointed := Repoint(demoted, l.id, w.id);
    forall k | k in s.rows
      ensures repointed.rows[k] == Absorbed(s.rows[k], l.id, w.id)
    {
      if k == l.id {
        assert demoted.rows[k].linkedId == Some(w.id);
      }
    }
  }

  /** On a valid store, the merge rewrites exactly the loser and the rows that
      linked to it: the save of the two matched entities writes back what the
      two updates already stored. */
  lemma MergeAbsorbsLoser(s: Store, matchE: Contact, matchP: Contact, primaryE: Contact, primaryP: Contact)
    requires Valid(s) && IsRow(s, matchE) && IsRow(s, matchP)
    requires PrimaryOf(s, matchE) == Some(primaryE) && PrimaryOf(s, matchP) == Some(primaryP)
    requires primaryE.id != primaryP.id
    ensures var w := Survivor(primaryE, primaryP);
      var l := Loser(primaryE, primaryP);
      var r := Merge(s, matchE, matchP, primaryE, primaryP);
      && r.contact == w
      && r.store.nextId == s.nextId && r.store.rows.Keys == s.rows.Keys
      && forall k | k in s.rows :: r.store.rows[k] == Absorbed(s.rows[k], l.id, w.id)
  {
    var w := Survivor(primaryE, primaryP);
    var l := Loser(primaryE, primaryP);
    var repointed := Repoint(Demote(s, l.id, w.id), l.id, w.id);
    UpdatesAbsorbLoser(s, l, w);
    SaveWritesBack(s, matchE, primaryE, primaryP, primaryE);
    SaveWritesBack(s, matchP, primaryE, primaryP, primaryP);
    var saved := Save(Save(repointed, Relinked(matchE, w.id)), Relinked(matchP, w.id));
    assert saved == repointed;
  }

  /** The entity the merge saves back equals the row the two updates produced. */
  lemma SaveWritesBack(s: Store, m: Contact, primaryE: Contact, primaryP: Contact, p: Contact)
    requires Valid(s) && IsRow(s, m) && PrimaryOf(s, m) == Some(p)
    requires IsRow(s, primaryE) && IsRow(s, primaryP) && primaryE.id != primaryP.id
    requires primaryE.linkPrecedence == Primary && primaryP.linkPrecedence == Primary
    requires p == primaryE || p == primaryP
    ensures var w := Survivor(primaryE, primaryP);
      var l := Loser(primaryE, primaryP);
      Repoint(Demote(s, l.id, w.id), l.id, w.id).rows[m.id] == Relinked(m, w.id)
  {
    var w := Survivor(primaryE, primaryP);
    var l := Loser(primaryE, primaryP);
    UpdatesAbsorbLoser(s, l, w);
    PrimaryOfIsClusterPrimary(s, m);
    ClusterPrimary(s, m);
  }

  /** After a merge on a valid store each row's cluster is its old one, with
      the loser's cluster renamed to the winner's. */
  lemma AbsorbedCluster(s: Store, c: Contact, l: Contact, w: Contact)
    requires Valid(s) && IsRow(s, c) && IsRow(s, l) && l.linkPrecedence == Primary
    ensures ClusterId(Absorbed(c, l.id, w.id)) == if ClusterId(c) == l.id then w.id else ClusterId(c)
    ensures FieldOf(Absorbed(c, l.id, w.id), Email) == FieldOf(c, Email)
    ensures FieldOf(Absorbed(c, l.id, w.id), Phone) == FieldOf(c, Phone)
  {
    ClusterPrimary(s, c);
  }

  /** Rewriting a valid store by `Absorbed` keeps it valid and leaves the
      winner a stored primary. */
  lemma AbsorbKeepsValid(s: Store, t: Store, l: Contact, w: Contact)
    requires Valid(s) && WellFormed(t) && t.rows.Keys == s.rows.Keys
    requires IsRow(s, l) && IsRow(s, w) && l.id != w.id
    requires l.linkPrecedence == Primary && w.linkPrecedence == Primary
    requires forall k | k in s.rows :: t.rows[k] == Absorbed(s.rows[k], l.id, w.id)
    ensures Valid(t) && IsRow(t, w)
  {
    assert t.rows[w.id] == w;
    forall k | k in t.rows && t.rows[k].linkedId.Some?
      ensures t.rows[k].linkedId.value in t.rows && t.rows[t.rows[k].linkedId.value].linkPrecedence == Primary
    {
      var target := t.rows[k].linkedId.value;
      if target != w.id {
        assert s.rows[k].linkedId == Some(target);
        assert t.rows[target] == s.rows[target];
      }
    }
  }

  /** Rewriting a valid store by `Absorbed` renames the loser's cluster to the
      winner's and changes no email or phone number, so values stay clustered. */
  lemma AbsorbKeepsClustered(s: Store, t: Store, l: Contact, w: Contact)
    requires Valid(s) && ValuesClustered(s) && t.rows.Keys == s.rows.Keys
    requires IsRow(s, l) && l.linkPrecedence == Primary
    requires forall k | k in s.rows :: t.rows[k] == Absorbed(s.rows[k], l.id, w.id)
    ensures ValuesClustered(t)
    ensures forall k | k in s.rows ::
      && ClusterId(t.rows[k]) == (if ClusterId(s.rows[k]) == l.id then w.id else ClusterId(s.rows[k]))
      && FieldOf(t.rows[k], Email) == FieldOf(s.rows[k], Email)
      && FieldOf(t.rows[k], Phone) == FieldOf(s.rows[k], Phone)
  {
    forall k | k in s.rows
      ensures ClusterId(t.rows[k]) == (if ClusterId(s.rows[k]) == l.id then w.id else ClusterId(s.rows[k]))
      ensures FieldOf(t.rows[k], Email) == FieldOf(s.rows[k], Email)
      ensures FieldOf(t.rows[k], Phone) == FieldOf(s.rows[k], Phone)
    {
      AbsorbedCluster(s, s.rows[k], l, w);
    }
    forall f, j, k | j in t.rows && k in t.rows && FieldOf(t.rows[j], f).Some? && FieldOf(t.rows[j], f) == FieldOf(t.rows[k], f)
      ensures ClusterId(t.rows[j]) == ClusterId(t.rows[k])
    {
      assert f == Email || f == Phone;
      assert FieldOf(s.rows[j], f) == FieldOf(s.rows[k], f);
    }
  }

  /** A value held by a row of the loser's or the winner's cluster is, after
      the rewrite, held only by rows of the winner's cluster. */
  lemma AbsorbOwns(s: Store, t: Store, l: Contact, w: Contact, f: Field, v: string, m: Contact)
    requires ValuesClustered(s) && t.rows.Keys == s.rows.Keys && w.linkedId.None?
    requires IsRow(s, m) && FieldOf(m, f) == Some(v) && (ClusterId(m) == l.id || ClusterId(m) == w.id)
    requires forall k | k in s.rows ::
      && ClusterId(t.rows[k]) == (if ClusterId(s.rows[k]) == l.id then w.id else ClusterId(s.rows[k]))
      && FieldOf(t.rows[k], f) == FieldOf(s.rows[k], f)
    ensures Owns(t, f, v, w)
  {
    assert Holds(t.rows[m.id], FieldIs(f, v));
    forall k | k in t.rows && FieldOf(t.rows[k], f) == Some(v)
      ensures ClusterId(t.rows[k]) == ClusterId(w)
    {
      assert ClusterId(s.rows[k]) == ClusterId(m);
    }
  }

  /** The merge keeps the invariants; every row that carried the submitted
      email or phone number is afterwards in the survivor's cluster. */
  lemma MergePreserves(s: Store, email: string, phoneNumber: string,
                                          matchE: Contact, matchP: Contact, primaryE: Contact, primaryP: Contact)
    requires Valid(s) && ValuesClustered(s) && IsRow(s, matchE) && IsRow(s, matchP)
    requires matchE.email == Some(email) && matchP.phoneNumber == Some(phoneNumber)
    requires PrimaryOf(s, matchE) == Some(primaryE) && PrimaryOf(s, matchP) == Some(primaryP)
    requires primaryE.id != primaryP.id
    ensures var r := Merge(s, matchE, matchP, primaryE, primaryP);
      Settled(r.store, r.contact) && Owns(r.store, Email, email, r.contact) && Owns(r.store, Phone, phoneNumber, r.contact)
  {
    MergeAbsorbsLoser(s, matchE, matchP, primaryE, primaryP);
    PrimaryOfIsClusterPrimary(s, matchE);
    PrimaryOfIsClusterPrimary(s, matchP);
    var w := Survivor(primaryE, primaryP);
    var l := Loser(primaryE, primaryP);
    var t := Merge(s, matchE, matchP, primaryE, primaryP).store;
    AbsorbKeepsValid(s, t, l, w);
    AbsorbKeepsClustered(s, t, l, w);
    AbsorbOwns(s, t, l, w, Email, email, matchE);
    AbsorbOwns(s, t, l, w, Phone, phoneNumber, matchP);
  }

  /** The submitted value for field `f`. */
  function Submitted(f: Field, email: string, phoneNumber: string): string
  {
    match f
    case Email => email
    case Phone => phoneNumber
  }

  /** Attaching a new secondary to the cluster of the row matched on field
      `f`, when nothing matches the other field, keeps the invariants and
      puts both submitted values in that cluster. */
  lemma AttachPreserves(s: Store, email: string, phoneNumber: string, m: Contact, f: Field, now: int)
    requires Valid(s) && ValuesClustered(s) && IsRow(s, m)
    requires FieldOf(m, f) == Some(Submitted(f, email, phoneNumber))
    requires !HasMatch(s, FieldIs(OtherField(f), Submitted(OtherField(f), email, phoneNumber)))
    ensures var r := Attach(s, email, phoneNumber, m, now);
      Settled(r.store, r.contact) && Owns(r.store, Email, email, r.contact) && Owns(r.store, Phone, phoneNumber, r.contact)
  {
    var r := Attach(s, email, phoneNumber, m, now);
    var c := r.contact;
    ClusterPrimary(s, m);
    assert LinkTarget(m) == ClusterId(m);
    AddKeepsValid(s, r.store, c);
    NewValuesClustered(s, r.store, c);
    assert r.store.rows[c.id] == c;
    assert Holds(r.store.rows[c.id], FieldIs(Email, email));
    assert Holds(r.store.rows[c.id], FieldIs(Phone, phoneNumber));
  }

  /** A new primary carrying two values that no row holds keeps the invariants. */
  lemma CreateBothPreserves(s: Store, email: string, phoneNumber: string, now: int)
    requires Valid(s) && ValuesClustered(s)
    requires !HasMatch(s, FieldIs(Email, email)) && !HasMatch(s, FieldIs(Phone, phoneNumber))
    ensures var r := Insert(s, Some(email), Some(phoneNumber), None, Some(Primary), now);
      Settled(r.store, r.contact) && Owns(r.store, Email, email, r.contact) && Owns(r.store, Phone, phoneNumber, r.contact)
  {
    var r := Insert(s, Some(email), Some(phoneNumber), None, Some(Primary), now);
    var c := r.contact;
    AddKeepsValid(s, r.store, c);
    NewValuesClustered(s, r.store, c);
    assert Holds(r.store.rows[c.id], FieldIs(Email, email));
    assert Holds(r.store.rows[c.id], FieldIs(Phone, phoneNumber));
  }

  /** When the email match and the phone match already share a cluster the
      store is untouched and the email match's cluster owns both values. */
  lemma SameClusterOwns(s: Store, email: string, phoneNumber: string, matchE: Contact, matchP: Contact)
    requires Valid(s) && ValuesClustered(s) && IsRow(s, matchE) && IsRow(s, matchP)
    requires matchE.email == Some(email) && matchP.phoneNumber == Some(phoneNumber)
    requires ClusterId(matchE) == ClusterId(matchP)
    ensures Settled(s, matchE) && Owns(s, Email, email, matchE) && Owns(s, Phone, phoneNumber, matchE)
  {
    assert Holds(s.rows[matchE.id], FieldIs(Email, email));
    assert Holds(s.rows[matchP.id], FieldIs(Phone, phoneNumber));
    assert FieldOf(matchE, Email) == Some(email) && FieldOf(matchP, Phone) == Some(phoneNumber);
  }

  /** The combined handler keeps the invariants, whatever rows the two
      lookups pick, and leaves both submitted values owned by the anchor's cluster. */
  lemma BothFieldsPreserve(s: Store, email: string, phoneNumber: string, choice: Choice, now: int)
    requires Valid(s) && ValuesClustered(s)
    ensures var r := HandleEmailAndPhoneNumber(s, email, phoneNumber, choice, now);
      Settled(r.store, r.contact) && Owns(r.store, Email, email, r.contact) && Owns(r.store, Phone, phoneNumber, r.contact)
  {
    var matchE := FindOne(s, FieldIs(Email, email), choice.emailHint);
    var matchP := FindOne(s, FieldIs(Phone, phoneNumber), choice.phoneHint);
    if matchE.Some? && matchP.Some? {
      PrimaryOfIsClusterPrimary(s, matchE.value);
      PrimaryOfIsClusterPrimary(s, matchP.value);
      var primaryE := PrimaryOf(s, matchE.value);
      var primaryP := PrimaryOf(s, matchP.value);
      if primaryE.value.id != primaryP.value.id {
        MergePreserves(s, email, phoneNumber, matchE.value, matchP.value, primaryE.value, primaryP.value);
      } else {
        SameClusterOwns(s, email, phoneNumber, matchE.value, matchP.value);
      }
    } else if matchE.Some? {
      AttachPreserves(s, email, phoneNumber, matchE.value, Email, now);
    } else if matchP.Some? {
      AttachPreserves(s, email, phoneNumber, matchP.value, Phone, now);
    } else {
      CreateBothPreserves(s, email, phoneNumber, now);
    }
  }
}
