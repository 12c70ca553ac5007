/** Parameterized replaceable events: which of them share a slot, and when only the latest is kept (NIP-33). */
module AddressableEvents {
  import opened EventRepository
  import opened Events
  import opened EventStrategies
  import opened Hex
  import opened ReplaceableSlots
  import opened Sets
  import opened TagIndex
  import opened Wrappers

  /** The value NIP-33 addresses an event by: the first value of its first "d" tag, empty without one. */
  function AddressOf(tags: seq<Tag>): string {
    if tags == [] then ""
    else if tags[0] != [] && tags[0][0] == "d" then (if |tags[0]| >= 2 then tags[0][1] else "")
    else AddressOf(tags[1..])
  }

  /** The first value of the first "d" tag that has one, empty without one. */
  function FirstValue(tags: seq<Tag>): string {
    if tags == [] then ""
    else if |tags[0]| >= 2 && tags[0][0] == "d" then tags[0][1]
    else FirstValue(tags[1..])
  }

  lemma {:induction false} FirstValueIs(tags: seq<Tag>)
    ensures FirstValue(tags) == DeduplicationOf(tags)[0]
  {
    if tags != [] && !(|tags[0]| >= 2 && tags[0][0] == "d") { FirstValueIs(tags[1..]); }
  }

  /** The slot key is the one value that NIP-33 names, and no more. */
  predicate SingleValued(tags: seq<Tag>) {
    DeduplicationOf(tags) == [AddressOf(tags)]
  }

  predicate IsAddressable(e: Event) {
    ValidEvent(e) && IsParameterizedReplaceable(e.kind)
  }

  predicate SameAuthorAndKind(a: Event, b: Event) {
    a.pubkey == b.pubkey && a.kind == b.kind
  }

  lemma SlotsAre(a: Event, b: Event)
    requires IsAddressable(a) && IsAddressable(b) && SameAuthorAndKind(a, b)
    ensures SlotOf(a) == SlotOf(b) <==> DeduplicationOf(a.tags) == DeduplicationOf(b.tags)
  {
  }

  /** Two events share a slot exactly if their key tags agree in the first value and in all that follows it. */
  lemma SlotsAgreeExactly(a: Event, b: Event, s: Tag, t: Tag)
    requires IsAddressable(a) && IsAddressable(b) && SameAuthorAndKind(a, b) && KeyedBy(a.tags, s) && KeyedBy(b.tags, t)
    ensures |s| >= 2 && |t| >= 2
    ensures SlotOf(a) == SlotOf(b) <==> s[1] == t[1] && s[2..] == t[2..]
  {
    SlotsAre(a, b);
    KeyFollowsName(a.tags, s);
    KeyFollowsName(b.tags, t);
    ValuesAgree(s, t);
  }

  lemma ValuesAgree(s: Tag, t: Tag)
    requires |s| >= 2 && |t| >= 2
    ensures s[1..] == t[1..] <==> s[1] == t[1] && s[2..] == t[2..]
  {
    assert s[1..] == [s[1]] + s[2..] && t[1..] == [t[1]] + t[2..];
  }

  /** Against every event that is keyed by its address, sharing a slot is sharing the address. */
  ghost predicate AddressIsSlot(a: Event) {
    forall b :: IsAddressable(b) && SameAuthorAndKind(a, b) && SingleValued(b.tags) ==>
      (SlotOf(a) == SlotOf(b) <==> AddressOf(a.tags) == AddressOf(b.tags))
  }

  /** The slot is the address that NIP-33 names if and only if the slot key is just that address. */
  lemma AddressIsSlotExactly(a: Event)
    requires IsAddressable(a)
    ensures AddressIsSlot(a) <==> SingleValued(a.tags)
  {
    var plain := a.(tags := [["d", AddressOf(a.tags)]]);
    assert DeduplicationOf(plain.tags) == [AddressOf(a.tags)] && AddressOf(plain.tags) == AddressOf(a.tags);
    SlotsAre(a, plain);
    forall b | IsAddressable(b) && SameAuthorAndKind(a, b) && SingleValued(b.tags) && SingleValued(a.tags)
      ensures SlotOf(a) == SlotOf(b) <==> AddressOf(a.tags) == AddressOf(b.tags)
    {
      SlotsAre(a, b);
    }
  }

  // ---- what the table keeps -------------------------------------------------------------

  lemma WinnerKept(ss: seq<Statement>, e: Event, i: nat)
    requires ClientRun(ss) && IdsDetermineEvents(ss) && Winner(Upserts(ss), i) && Upserts(ss)[i] == e
    ensures ToBuffer(e.id) in Run(EmptyDb, ss).rows && Unmarked(Run(EmptyDb, ss).rows[ToBuffer(e.id)]) == StoredRow(e)
  {
    var j := SlotsConverge(ss, e);
    WinnerUnique(Upserts(ss), i, j);
    assert ToBuffer(e.id) in RowsOfSlot(Run(EmptyDb, ss).rows, SlotOf(e));
  }

  lemma UpsertIsValid(ss: seq<Statement>, e: Event)
    requires ClientRun(ss) && e in Upserts(ss)
    ensures ValidEvent(e) && Submitted(ss, e) && Indexed(e.kind)
  {
    UpsertsAre(ss, e);
    assert ClientStatement(UpsertStatement(e, MetadataOf(e)));
    DispatchAgreesWithIndex(e.kind);
  }

  /** The row that has the id of a submitted replaceable event is that event's. */
  lemma KeptIsOwn(ss: seq<Statement>, e: Event)
    requires ClientRun(ss) && IdsDetermineEvents(ss) && e in Upserts(ss) && ToBuffer(e.id) in Run(EmptyDb, ss).rows
    ensures InSlot(Run(EmptyDb, ss).rows[ToBuffer(e.id)], SlotOf(e)) && ValidEvent(e) && Submitted(ss, e)
  {
    UpsertIsValid(ss, e);
    RunConverges(ss);
    var d := RowsAreSubmitted(Run(EmptyDb, ss), ss, ToBuffer(e.id));
    ToBufferInjective(d.id, e.id);
    SameIdSameEvent(ss, d, e);
    StoredRowInSlot(e);
  }

  lemma KeptIsWinner(ss: seq<Statement>, e: Event) returns (i: nat)
    requires ClientRun(ss) && IdsDetermineEvents(ss) && e in Upserts(ss) && ToBuffer(e.id) in Run(EmptyDb, ss).rows
    ensures Winner(Upserts(ss), i) && Upserts(ss)[i] == e
  {
    KeptIsOwn(ss, e);
    i := SlotsConverge(ss, e);
    OnlyRowOfSlot(Run(EmptyDb, ss).rows, SlotOf(e), ToBuffer(e.id), ToBuffer(Upserts(ss)[i].id));
    assert Upserts(ss)[i] in Upserts(ss);
    var w := Upserts(ss)[i];
    UpsertIsValid(ss, w);
    ToBufferInjective(w.id, e.id);
    SameIdSameEvent(ss, w, e);
  }

  lemma OnlyRowOfSlot(rows: Rows, slot: Slot, id: Bytes, only: Bytes)
    requires RowsOfSlot(rows, slot) == {only} && id in rows && InSlot(rows[id], slot)
    ensures id == only
  {
    assert id in RowsOfSlot(rows, slot);
  }

  /** After any client run, a submitted replaceable event is in the table exactly if it won its slot. */
  lemma KeptExactlyWinners(ss: seq<Statement>, e: Event)
    requires ClientRun(ss) && IdsDetermineEvents(ss) && e in Upserts(ss)
    ensures ToBuffer(e.id) in Run(EmptyDb, ss).rows <==> exists i: nat :: Winner(Upserts(ss), i) && Upserts(ss)[i] == e
  {
    if ToBuffer(e.id) in Run(EmptyDb, ss).rows {
      var i := KeptIsWinner(ss, e);
    }
    if i: nat :| Winner(Upserts(ss), i) && Upserts(ss)[i] == e {
      WinnerKept(ss, e, i);
    }
  }

  /** The events of one author and kind with the same first value. */
  predicate SameFirstValue(a: Event, b: Event) {
    SameAuthorAndKind(a, b) && FirstValue(a.tags) == FirstValue(b.tags)
  }

  function RowsLike(rows: Rows, e: Event): set<Bytes> {
    set id | id in rows && rows[id].eventPubkey == ToBuffer(e.pubkey) && rows[id].eventKind == e.kind
             && FirstValue(rows[id].eventTags) == FirstValue(e.tags)
  }

  /** The event whose row is like e's. */
  lemma RowLikeIsUpsert(ss: seq<Statement>, d: Event)
    requires ClientRun(ss) && Submitted(ss, d) && Indexed(d.kind)
    ensures d in Upserts(ss)
  {
    assert ClientStatement(CreateStatement(d)) ==> !Indexed(d.kind) by { DispatchAgreesWithIndex(d.kind); }
    UpsertsAre(ss, d);
  }

  lemma RowLike(ss: seq<Statement>, e: Event, id: Bytes) returns (d: Event)
    requires ClientRun(ss) && IdsDetermineEvents(ss) && e in Upserts(ss) && IsAddressable(e)
    requires id in RowsLike(Run(EmptyDb, ss).rows, e)
    ensures d in Upserts(ss) && IsAddressable(d) && SameFirstValue(e, d)
    ensures ToBuffer(d.id) == id && InSlot(Run(EmptyDb, ss).rows[id], SlotOf(d))
  {
    RunConverges(ss);
    d := RowsAreSubmitted(Run(EmptyDb, ss), ss, id);
    DispatchAgreesWithIndex(e.kind);
    StoredRowInSlot(d);
    RowLikeIsUpsert(ss, d);
    UpsertIsValid(ss, e);
    ToBufferInjective(d.pubkey, e.pubkey);
  }

  lemma WinnerLike(ss: seq<Statement>, e: Event, d: Event) returns (id: Bytes)
    requires ClientRun(ss) && IdsDetermineEvents(ss) && d in Upserts(ss) && IsAddressable(e) && IsAddressable(d)
    requires SameFirstValue(e, d)
    ensures id in RowsLike(Run(EmptyDb, ss).rows, e) && InSlot(Run(EmptyDb, ss).rows[id], SlotOf(d))
  {
    var i := SlotsConverge(ss, d);
    id := ToBuffer(Upserts(ss)[i].id);
    var rows := Run(EmptyDb, ss).rows;
    assert id in RowsOfSlot(rows, SlotOf(d));
    var w := Upserts(ss)[i];
    assert SlotOf(w) == SlotOf(d) && Unmarked(rows[id]) == StoredRow(w);
    assert MetadataOf(w) == Some(DeduplicationOf(w.tags)) && MetadataOf(d) == Some(DeduplicationOf(d.tags));
    FirstValueIs(w.tags);
    FirstValueIs(d.tags);
  }

  /** The two events' key tags go on alike after the first value. */
  ghost predicate SameTail(a: Event, b: Event) {
    forall s, t :: KeyedBy(a.tags, s) && KeyedBy(b.tags, t) && |s| >= 2 && |t| >= 2 ==> s[2..] == t[2..]
  }

  lemma SameTailIsSameKey(a: Event, b: Event)
    requires FirstValue(a.tags) == FirstValue(b.tags)
    ensures SameTail(a, b) <==> DeduplicationOf(a.tags) == DeduplicationOf(b.tags)
  {
    var s := SomeTagKeys(a.tags);
    var t := SomeTagKeys(b.tags);
    TailsAgree(a, b, s, t);
    forall s, t | KeyedBy(a.tags, s) && KeyedBy(b.tags, t)
      ensures |s| >= 2 && |t| >= 2 && (s[2..] == t[2..] <==> DeduplicationOf(a.tags) == DeduplicationOf(b.tags))
    {
      TailsAgree(a, b, s, t);
    }
  }

  lemma TailsAgree(a: Event, b: Event, s: Tag, t: Tag)
    requires FirstValue(a.tags) == FirstValue(b.tags) && KeyedBy(a.tags, s) && KeyedBy(b.tags, t)
    ensures |s| >= 2 && |t| >= 2 && s[1] == t[1]
    ensures s[2..] == t[2..] <==> DeduplicationOf(a.tags) == DeduplicationOf(b.tags)
  {
    FirstValueIs(a.tags);
    FirstValueIs(b.tags);
    KeyFollowsName(a.tags, s);
    KeyFollowsName(b.tags, t);
    ValuesAgree(s, t);
  }

  /** After any client run: of the events that agree in author, kind and first value, the table holds one row
      if and only if all of them that were submitted agree in every further value of their key tags too. */
  lemma OneRowPerAddressExactly(ss: seq<Statement>, e: Event)
    requires ClientRun(ss) && IdsDetermineEvents(ss) && e in Upserts(ss) && IsAddressable(e)
    ensures |RowsLike(Run(EmptyDb, ss).rows, e)| == 1
            <==> forall d :: d in Upserts(ss) && IsAddressable(d) && SameFirstValue(e, d) ==> SameTail(e, d)
  {
    OneRowPerKey(ss, e);
    forall d | SameFirstValue(e, d) {
      SameTailIsSameKey(e, d);
    }
  }

  lemma OneRowPerKey(ss: seq<Statement>, e: Event)
    requires ClientRun(ss) && IdsDetermineEvents(ss) && e in Upserts(ss) && IsAddressable(e)
    ensures |RowsLike(Run(EmptyDb, ss).rows, e)| == 1
            <==> forall d :: d in Upserts(ss) && IsAddressable(d) && SameFirstValue(e, d) ==>
                   DeduplicationOf(d.tags) == DeduplicationOf(e.tags)
  {
    var rows := Run(EmptyDb, ss).rows;
    var like := RowsLike(rows, e);
    var own := WinnerLike(ss, e, e);
    if d :| d in Upserts(ss) && IsAddressable(d) && SameFirstValue(e, d)
            && DeduplicationOf(d.tags) != DeduplicationOf(e.tags) {
      var other := WinnerLike(ss, e, d);
      SlotsAre(e, d);
      assert {own, other} <= like;
      SubsetSize({own, other}, like);
    } else {
      forall id | id in like ensures id == own {
        var d := RowLike(ss, e, id);
        SlotsAre(e, d);
        RunConverges(ss);
      }
      assert like == {own};
    }
  }

  /** The smallest run: of two versions with the same first value the older one is still there, and visible,
      if and only if the further values of their key tags differ. */
  lemma OlderVersionStays(a: Event, b: Event, s: Tag, t: Tag)
    requires IsAddressable(a) && IsAddressable(b) && SameAuthorAndKind(a, b)
    requires a.id != b.id && a.createdAt < b.createdAt
    requires KeyedBy(a.tags, s) && KeyedBy(b.tags, t) && |s| >= 2 && |t| >= 2 && s[1] == t[1]
    ensures var rows := Run(EmptyDb, [UpsertStatement(a, MetadataOf(a)), UpsertStatement(b, MetadataOf(b))]).rows;
            && ToBuffer(b.id) in rows && !rows[ToBuffer(b.id)].deleted
            && (ToBuffer(a.id) in rows && !rows[ToBuffer(a.id)].deleted
                <==> s[2..] != t[2..])
  {
    var ss := [UpsertStatement(a, MetadataOf(a)), UpsertStatement(b, MetadataOf(b))];
    var es := [a, b];
    TwoUpserts(a, b);
    SlotsAgreeExactly(a, b, s, t);
    assert es[0] == a && es[1] == b;
    assert Winner(es, 1);
    assert Winner(es, 0) <==> SlotOf(a) != SlotOf(b);
    KeptExactlyWinners(ss, a);
    KeptExactlyWinners(ss, b);
    if ToBuffer(a.id) in Run(EmptyDb, ss).rows { NothingMarked(ss, ToBuffer(a.id)); }
    if ToBuffer(b.id) in Run(EmptyDb, ss).rows { NothingMarked(ss, ToBuffer(b.id)); }
  }

  lemma TwoUpserts(a: Event, b: Event)
    requires IsAddressable(a) && IsAddressable(b) && a.id != b.id
    ensures var ss := [UpsertStatement(a, MetadataOf(a)), UpsertStatement(b, MetadataOf(b))];
            Upserts(ss) == [a, b] && ClientRun(ss) && IdsDetermineEvents(ss) && NoDeletes(ss)
  {
    var s, t := UpsertStatement(a, MetadataOf(a)), UpsertStatement(b, MetadataOf(b));
    UpsertsNext([], s);
    UpsertsNext([s], t);
    assert [] + [s] == [s] && [s] + [t] == [s, t];
    DispatchAgreesWithIndex(a.kind);
    DispatchAgreesWithIndex(b.kind);
  }
}
