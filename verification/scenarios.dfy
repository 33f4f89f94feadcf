/** Worked requests against an initially empty table. */
module Scenarios {
  import opened Wrappers
  import opened ContactEntity
  import opened ContactStore
  import opened Resolver
  import opened Aggregation
  import opened IdentifyService

  const Empty: Store := Store(map[], 1)

  /** A new email alone creates primary 1 and answers with it. */
  lemma FirstEmailCreatesPrimary()
    ensures var r := Identify(Empty, Input(Some("a@x.com"), None), Choice(0, 0), 10);
      && r.store == Store(map[1 := Contact(1, None, Some("a@x.com"), None, Primary, 10)], 2)
      && r.result == Success(View(1, ["a@x.com"], [], []))
  {
    FirstEmailStore();
    FirstEmailView();
  }

  const First: Contact := Contact(1, None, Some("a@x.com"), None, Primary, 10)

  lemma FirstEmailStore()
    ensures HandleEmailOnly(Empty, "a@x.com", 0, 10) == Stored(Store(map[1 := First], 2), First)
  {
    assert Select(Empty, FieldIs(Email, "a@x.com"), 0) == [];
  }

  lemma FirstEmailView()
    ensures Project(Gather(Store(map[1 := First], 2), First), First) == View(1, ["a@x.com"], [], [])
  {
    FirstEmailGather();
    FirstEmailProject();
  }

  lemma FirstEmailGather()
    ensures Gather(Store(map[1 := First], 2), First) == [First]
  {
    var s1 := Store(map[1 := First], 2);
    assert Select(s1, InClusterOf(First), 2) == [];
    assert Select(s1, InClusterOf(First), 1) == [First];
  }

  lemma FirstEmailProject()
    ensures Project([First], First) == View(1, ["a@x.com"], [], [])
  {
    assert PresentValues([First], Email) == ["a@x.com"];
    assert PresentValues([First], Phone) == [];
    assert Distinct(["a@x.com"]) == ["a@x.com"];
    assert SecondaryIds([First]) == [];
  }

  const A: Contact := Contact(1, None, Some("a@x.com"), None, Primary, 10)

  /** The known email with a new phone number attaches secondary 2 to primary 1. */
  lemma KnownEmailNewPhoneAttaches()
    ensures var r := Identify(Store(map[1 := A], 2), Input(Some("a@x.com"), Some("555")), Choice(0, 0), 20);
      && r.store.rows == map[1 := A, 2 := C2]
      && r.result == Success(View(1, ["a@x.com"], ["555"], [2]))
  {
    KnownEmailNewPhoneStore();
    KnownEmailNewPhoneView();
  }

  lemma KnownEmailNewPhoneStore()
    ensures HandleEmailAndPhoneNumber(Store(map[1 := A], 2), "a@x.com", "555", Choice(0, 0), 20)
      == Stored(Store(map[1 := A, 2 := C2], 3),
                C2)
  {
    var s1 := Store(map[1 := A], 2);
    assert Select(s1, FieldIs(Email, "a@x.com"), 2) == [];
    assert Select(s1, FieldIs(Email, "a@x.com"), 1) == [A];
    assert Select(s1, FieldIs(Email, "a@x.com"), 0) == [A];
    assert Select(s1, FieldIs(Phone, "555"), 1) == [];
    assert Select(s1, FieldIs(Phone, "555"), 0) == [];
  }

  const C2: Contact := Contact(2, Some("555"), Some("a@x.com"), Some(1), Secondary, 20)

  lemma KnownEmailNewPhoneView()
    ensures Project(Gather(Store(map[1 := A, 2 := C2], 3), C2), C2) == View(1, ["a@x.com"], ["555"], [2])
  {
    KnownEmailNewPhoneGather();
    KnownEmailNewPhoneProject();
  }

  lemma KnownEmailNewPhoneGather()
    ensures Gather(Store(map[1 := A, 2 := C2], 3), C2) == [A, C2]
  {
    var s2 := Store(map[1 := A, 2 := C2], 3);
    assert Select(s2, InClusterOf(C2), 3) == [];
    assert Select(s2, InClusterOf(C2), 2) == [C2];
    assert Select(s2, InClusterOf(C2), 1) == [A, C2];
  }

  lemma KnownEmailNewPhoneProject()
    ensures Project([A, C2], C2) == View(1, ["a@x.com"], ["555"], [2])
  {
    KnownEmailNewPhoneEmails();
    KnownEmailNewPhoneOthers();
  }

  /** Both rows carry the email; the Set keeps one copy. */
  lemma KnownEmailNewPhoneEmails()
    ensures Distinct(PresentValues([A, C2], Email)) == ["a@x.com"]
  {
    assert [A, C2][1..] == [C2];
    assert PresentValues([C2], Email) == ["a@x.com"];
    assert PresentValues([A, C2], Email) == ["a@x.com", "a@x.com"];
    assert ["a@x.com", "a@x.com"][..1] == ["a@x.com"];
  }

  /** Only the secondary carries a phone number, and it is the only secondary. */
  lemma KnownEmailNewPhoneOthers()
    ensures Distinct(PresentValues([A, C2], Phone)) == ["555"]
    ensures SecondaryIds([A, C2]) == [2]
    ensures FirstPrimary([A, C2]) == Some(A)
  {
    assert [A, C2][1..] == [C2];
    assert PresentValues([C2], Phone) == ["555"];
    assert Distinct(["555"]) == ["555"];
    assert SecondaryIds([C2]) == [2];
  }

  /** Primary 2, created after primary 1 from a phone number alone. */
  const B: Contact := Contact(2, Some("555"), None, None, Primary, 20)
  const MergedB: Contact := Contact(2, Some("555"), None, Some(1), Secondary, 20)

  /** Primary 1 holding only an email and primary 2 holding only a phone
      number: a request carrying both merges them under the earlier one, and
      repeating the request changes nothing. */
  lemma BridgingRequestMergesUnderEarlierPrimary()
    ensures var r := Identify(Store(map[1 := A, 2 := B], 3), Input(Some("a@x.com"), Some("555")), Choice(0, 0), 30);
      && r.store == Store(map[1 := A, 2 := MergedB], 3)
      && r.result == Success(View(1, ["a@x.com"], ["555"], [2]))
      && Identify(r.store, Input(Some("a@x.com"), Some("555")), Choice(0, 0), 40) == r
  {
    BridgingStore();
    BridgingView();
    RepeatWritesNothing();
  }

  lemma BridgingStore()
    ensures HandleEmailAndPhoneNumber(Store(map[1 := A, 2 := B], 3), "a@x.com", "555", Choice(0, 0), 30)
      == Stored(Store(map[1 := A, 2 := MergedB], 3), A)
  {
    var s := Store(map[1 := A, 2 := B], 3);
    BridgingLookups();
    assert PrimaryOf(s, A) == Some(A) && PrimaryOf(s, B) == Some(B);
    BridgingMerge();
  }

  /** With no usable hint, the email finds A and the phone number finds B. */
  lemma BridgingLookups()
    ensures FindOne(Store(map[1 := A, 2 := B], 3), FieldIs(Email, "a@x.com"), 0) == Some(A)
    ensures FindOne(Store(map[1 := A, 2 := B], 3), FieldIs(Phone, "555"), 0) == Some(B)
  {
    var s := Store(map[1 := A, 2 := B], 3);
    assert Select(s, FieldIs(Email, "a@x.com"), 2) == [];
    assert Select(s, FieldIs(Email, "a@x.com"), 1) == [A];
    assert Select(s, FieldIs(Phone, "555"), 2) == [B];
    assert Select(s, FieldIs(Phone, "555"), 1) == [B];
  }

  /** The merge itself: B is demoted under A, nothing links to B, and the
      final save writes back A unchanged and B as demoted. */
  lemma BridgingMerge()
    ensures Merge(Store(map[1 := A, 2 := B], 3), A, B, A, B).store == Store(map[1 := A, 2 := MergedB], 3)
  {
    var s := Store(map[1 := A, 2 := B], 3);
    assert Survivor(A, B) == A && Loser(A, B) == B;
    var demoted := Demote(s, 2, 1);
    assert demoted == Store(map[1 := A, 2 := MergedB], 3);
    assert Repoint(demoted, 2, 1) == demoted;
    assert Relinked(A, 1) == A && Relinked(B, 1) == MergedB;
  }

  lemma BridgingView()
    ensures Project(Gather(Store(map[1 := A, 2 := MergedB], 3), A), A) == View(1, ["a@x.com"], ["555"], [2])
  {
    BridgingGather();
    BridgingProject();
  }

  lemma BridgingGather()
    ensures Gather(Store(map[1 := A, 2 := MergedB], 3), A) == [A, MergedB]
  {
    var t := Store(map[1 := A, 2 := MergedB], 3);
    assert Select(t, InClusterOf(A), 3) == [];
    assert Select(t, InClusterOf(A), 2) == [MergedB];
    assert Select(t, InClusterOf(A), 1) == [A, MergedB];
  }

  lemma BridgingProject()
    ensures Project([A, MergedB], A) == View(1, ["a@x.com"], ["555"], [2])
  {
    assert [A, MergedB][1..] == [MergedB];
    assert PresentValues([MergedB], Email) == [];
    assert PresentValues([MergedB], Phone) == ["555"];
    assert SecondaryIds([MergedB]) == [2];
  }

  lemma RepeatWritesNothing()
    ensures HandleEmailAndPhoneNumber(Store(map[1 := A, 2 := MergedB], 3), "a@x.com", "555", Choice(0, 0), 40)
      == Stored(Store(map[1 := A, 2 := MergedB], 3), A)
  {
    var t := Store(map[1 := A, 2 := MergedB], 3);
    assert Select(t, FieldIs(Email, "a@x.com"), 2) == [];
    assert Select(t, FieldIs(Email, "a@x.com"), 1) == [A];
    assert Select(t, FieldIs(Phone, "555"), 2) == [MergedB];
    assert Select(t, FieldIs(Phone, "555"), 1) == [MergedB];
  }

  /** Primary 2 created at the same instant as primary 1. */
  const Twin: Contact := Contact(2, Some("555"), None, None, Primary, 10)

  /** Two primaries with equal creation times: the one reached from the phone
      number survives, although its id is the larger. */
  lemma EqualTimesKeepPhonePrimary()
    ensures var r := HandleEmailAndPhoneNumber(Store(map[1 := A, 2 := Twin], 3), "a@x.com", "555", Choice(0, 0), 30);
      && r.contact == Twin
      && r.store.rows[1] == A.(linkedId := Some(2), linkPrecedence := Secondary)
  {
    var s := Store(map[1 := A, 2 := Twin], 3);
    assert Select(s, FieldIs(Email, "a@x.com"), 2) == [];
    assert Select(s, FieldIs(Email, "a@x.com"), 1) == [A];
    assert Select(s, FieldIs(Phone, "555"), 2) == [Twin];
    assert Select(s, FieldIs(Phone, "555"), 1) == [Twin];
  }
}
