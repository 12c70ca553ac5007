/** Which statements an event leads to: dispatch by kind, slot keys, and ids to delete. */
module EventStrategies {
  import opened EventRepository
  import opened Events
  import opened Hex
  import opened Wrappers

  datatype Strategy = Replaceable | Ephemeral | Delete | ParameterizedReplaceable | Default

  function StrategyFor(kind: nat): Strategy {
    if IsReplaceable(kind) then Replaceable
    else if IsEphemeral(kind) then Ephemeral
    else if IsDelete(kind) then Delete
    else if IsParameterizedReplaceable(kind) then ParameterizedReplaceable
    else Default
  }

  /** The kinds dispatched to an upsert are the kinds of the partial unique index. */
  lemma DispatchAgreesWithIndex(kind: nat)
    ensures StrategyFor(kind) in {Replaceable, ParameterizedReplaceable} <==> Indexed(kind)
    ensures StrategyFor(kind) == ParameterizedReplaceable <==> IsParameterizedReplaceable(kind)
    ensures StrategyFor(kind) == Delete <==> kind == 5
    ensures StrategyFor(kind) == Ephemeral <==> 20000 <= kind < 30000
  {
  }

  /** Everything after the name of the first "d" tag that has a value; [""] without one. */
  function DeduplicationOf(tags: seq<Tag>): (values: seq<string>)
    ensures values != []
  {
    if tags == [] then [""]
    else if |tags[0]| >= 2 && tags[0][0] == "d" then tags[0][1..]
    else DeduplicationOf(tags[1..])
  }

  /** The tag whose values key the slot: the first "d" tag that has a value, or else an empty one. */
  ghost predicate KeyedBy(tags: seq<Tag>, t: Tag) {
    if exists u :: u in tags && |u| >= 2 && u[0] == "d" then
      |t| >= 2 && t[0] == "d"
      && exists i :: 0 <= i < |tags| && tags[i] == t
                     && forall j :: 0 <= j < i ==> !(|tags[j]| >= 2 && tags[j][0] == "d")
    else t == ["d", ""]
  }

  /** The key is everything that follows that tag's name. */
  lemma {:induction false} KeyFollowsName(tags: seq<Tag>, t: Tag)
    requires KeyedBy(tags, t)
    ensures |t| >= 2 && DeduplicationOf(tags) == t[1..]
  {
    if tags != [] && !(|tags[0]| >= 2 && tags[0][0] == "d") {
      var rest := tags[1..];
      assert forall i :: 0 < i < |tags| ==> tags[i] == rest[i - 1];
      assert forall u :: u in tags ==> u == tags[0] || u in rest;
      if i :| 0 <= i < |tags| && tags[i] == t && forall j :: 0 <= j < i ==> !(|tags[j]| >= 2 && tags[j][0] == "d") {
        if exists u :: u in tags && |u| >= 2 && u[0] == "d" {
          assert i > 0 && rest[i - 1] == t && t in rest;
          assert forall j :: 0 <= j < i - 1 ==> rest[j] == tags[j + 1];
        }
      }
      KeyFollowsName(rest, t);
    } else if tags != [] {
      assert tags[0] in tags;
    }
  }

  lemma {:induction false} SomeTagKeys(tags: seq<Tag>) returns (t: Tag)
    ensures KeyedBy(tags, t)
  {
    if tags == [] {
      t := ["d", ""];
    } else if |tags[0]| >= 2 && tags[0][0] == "d" {
      t := tags[0];
      assert tags[0] in tags && tags[0] == t;
    } else {
      var rest := tags[1..];
      t := SomeTagKeys(rest);
      assert forall u :: u in tags <==> u == tags[0] || u in rest;
      if i :| 0 <= i < |rest| && rest[i] == t && forall j :: 0 <= j < i ==> !(|rest[j]| >= 2 && rest[j][0] == "d") {
        assert tags[i + 1] == t;
        assert forall j :: 0 < j < i + 1 ==> tags[j] == rest[j - 1];
      }
    }
  }

  function MetadataOf(e: Event): Option<seq<string>> {
    if IsParameterizedReplaceable(e.kind) then Some(DeduplicationOf(e.tags)) else None
  }

  /** The slot a replaceable event competes for. */
  function SlotOf(e: Event): Slot {
    UpsertSlot(e, MetadataOf(e))
  }

  predicate IsDeletableTag(tag: Tag) {
    |tag| >= 2 && tag[0] == "e" && IsHexOf(tag[1], 64)
  }

  function IdsToDelete(tags: seq<Tag>): seq<string> {
    if tags == [] then []
    else IdsToDelete(tags[..|tags| - 1])
         + if IsDeletableTag(tags[|tags| - 1]) then [tags[|tags| - 1][1]] else []
  }

  /** The ids are the second elements of the "e" tags, whatever follows them, that are 64 lowercase hex digits. */
  lemma {:induction false} IdsToDeleteExact(tags: seq<Tag>, id: string)
    ensures id in IdsToDelete(tags)
            <==> IsHexOf(id, 64) && exists t :: t in tags && |t| >= 2 && t[0] == "e" && t[1] == id
  {
    if tags != [] {
      var n := |tags| - 1;
      IdsToDeleteExact(tags[..n], id);
      assert tags == tags[..n] + [tags[n]];
      assert tags[n] in tags;
    }
  }

  // ---- statements and runs of them ------------------------------------------------------

  datatype Statement =
    | CreateStatement(e: Event)
    | UpsertStatement(e: Event, metadata: Option<seq<string>>)
    | DeleteStatement(pubkey: string, ids: seq<string>)

  /** The table after one statement; one that violates a constraint changes nothing. */
  ghost function Apply(db: Db, s: Statement): Db {
    match s
    case CreateStatement(e) => Create(db, e).db
    case UpsertStatement(e, metadata) =>
      (match Upsert(db, e, metadata) case Ok(o) => o.db case Err(_) => db)
    case DeleteStatement(pubkey, ids) => DeleteByPubkeyAndIds(db, pubkey, ids).db
  }

  ghost function Run(db: Db, ss: seq<Statement>): Db {
    if ss == [] then db else Apply(Run(db, ss[..|ss| - 1]), ss[|ss| - 1])
  }

  /** The statements the strategies send for valid client events. */
  predicate ClientStatement(s: Statement) {
    match s
    case CreateStatement(e) => ValidEvent(e) && StrategyFor(e.kind) in {Default, Delete}
    case UpsertStatement(e, metadata) =>
      ValidEvent(e) && StrategyFor(e.kind) in {Replaceable, ParameterizedReplaceable} && metadata == MetadataOf(e)
    case DeleteStatement(pubkey, ids) => IsHexOf(pubkey, 64) && forall id :: id in ids ==> IsHexOf(id, 64)
  }

  predicate ClientRun(ss: seq<Statement>) {
    forall s :: s in ss ==> ClientStatement(s)
  }

  lemma ApplyKeepsConsistent(db: Db, s: Statement)
    requires Consistent(db)
    ensures Consistent(Apply(db, s))
  {
    match s
    case CreateStatement(e) => CreateKeepsConsistent(db, e);
    case UpsertStatement(e, metadata) =>
      if Upsert(db, e, metadata).Ok? { UpsertKeepsConsistent(db, e, metadata); }
    case DeleteStatement(pubkey, ids) => DeleteRowsExact(db, ToBuffer(pubkey), Buffers(ids));
  }

  /** Whatever statements run, in whatever order: slots stay unique, and the tag index holds exactly
      the indexable tags of the current rows. */
  lemma {:induction false} RunKeepsConsistent(db: Db, ss: seq<Statement>)
    requires Consistent(db)
    ensures Consistent(Run(db, ss))
  {
    if ss != [] {
      RunKeepsConsistent(db, ss[..|ss| - 1]);
      ApplyKeepsConsistent(Run(db, ss[..|ss| - 1]), ss[|ss| - 1]);
    }
  }

  lemma EmptyIsConsistent()
    ensures Consistent(EmptyDb)
  {
  }

  // ---- the strategies -------------------------------------------------------------------

  datatype Emitted = CommandResult(id: string, accepted: bool, message: string) | Broadcast(event: Event)

  /** A new event is confirmed and broadcast, in this order; one whose id is there is reported as a duplicate. */
  method ExecuteDefault(repository: EventRepository, e: Event) returns (emitted: seq<Emitted>)
    requires repository.Valid()
    modifies repository
    ensures repository.Valid()
    ensures repository.Contents() == Apply(old(repository.Contents()), CreateStatement(e))
    ensures emitted
            == if ToBuffer(e.id) in old(repository.rows) then [CommandResult(e.id, true, "duplicate:")]
               else [CommandResult(e.id, true, ""), Broadcast(e)]
  {
    var count := repository.CreateEvent(e);
    emitted := [CommandResult(e.id, true, if count != 0 then "" else "duplicate:")];
    if count != 0 {
      emitted := emitted + [Broadcast(e)];
    }
  }

  method CollectIds(tags: seq<Tag>) returns (ids: seq<string>)
    ensures ids == IdsToDelete(tags)
  {
    ids := [];
    var i := 0;
    while i < |tags|
      invariant 0 <= i <= |tags|
      invariant ids == IdsToDelete(tags[..i])
    {
      assert tags[..i + 1][..i] == tags[..i];
      if IsDeletableTag(tags[i]) {
        ids := ids + [tags[i][1]];
      }
      i := i + 1;
    }
    assert tags[..i] == tags;
  }

  lemma DeletedKeepsIds(db: Db, e: Event)
    requires Consistent(db)
    ensures Apply(db, DeleteStatement(e.pubkey, IdsToDelete(e.tags))).rows.Keys == db.rows.Keys
  {
    DeleteRowsExact(db, ToBuffer(e.pubkey), Buffers(IdsToDelete(e.tags)));
  }

  /** Deletes first, then stores the delete event itself, and emits what storing any event does. */
  method ExecuteDelete(repository: EventRepository, e: Event) returns (emitted: seq<Emitted>)
    requires repository.Valid()
    modifies repository
    ensures repository.Valid()
    ensures var deleted := Apply(old(repository.Contents()), DeleteStatement(e.pubkey, IdsToDelete(e.tags)));
            repository.Contents() == Apply(deleted, CreateStatement(e))
    ensures emitted
            == if ToBuffer(e.id) in old(repository.rows) then [CommandResult(e.id, true, "duplicate:")]
               else [CommandResult(e.id, true, ""), Broadcast(e)]
  {
    DeletedKeepsIds(repository.Contents(), e);
    var ids := CollectIds(e.tags);
    if ids != [] {
      var _ := repository.DeleteEvents(e.pubkey, ids);
    }
    emitted := ExecuteDefault(repository, e);
  }

  /** A stale event is reported as a duplicate, a taken id throws, and any other event is broadcast. */
  method ExecuteParameterizedReplaceable(repository: EventRepository, e: Event)
    returns (r: Result<seq<Emitted>, string>)
    requires repository.Valid()
    modifies repository
    ensures repository.Valid()
    ensures repository.Contents()
            == Apply(old(repository.Contents()), UpsertStatement(e, Some(DeduplicationOf(e.tags))))
    ensures var rows, metadata := old(repository.rows), Some(DeduplicationOf(e.tags));
            r == if Stale(rows, e, metadata) then Ok([CommandResult(e.id, true, "duplicate:")])
                 else if Taken(rows, e, metadata) then Err(UNIQUE_VIOLATION)
                 else Ok([CommandResult(e.id, true, ""), Broadcast(e)])
  {
    var count := repository.UpsertEvent(e, Some(DeduplicationOf(e.tags)));
    match count
    case Err(error) => r := Err(error);
    case Ok(n) =>
      var emitted := [CommandResult(e.id, true, if n != 0 then "" else "duplicate:")];
      if n != 0 {
        emitted := emitted + [Broadcast(e)];
        assert emitted == [CommandResult(e.id, true, ""), Broadcast(e)];
      }
      r := Ok(emitted);
  }

  /** The replaceable strategy turns the constraint violation into a rejection. */
  method ExecuteReplaceable(repository: EventRepository, e: Event) returns (emitted: seq<Emitted>)
    requires repository.Valid()
    modifies repository
    ensures repository.Valid()
    ensures repository.Contents() == Apply(old(repository.Contents()), UpsertStatement(e, None))
    ensures var rows := old(repository.rows);
            emitted == if Stale(rows, e, None) then [CommandResult(e.id, true, "duplicate:")]
                       else if Taken(rows, e, None) then [CommandResult(e.id, false, "rejected: event already exists")]
                       else [CommandResult(e.id, true, ""), Broadcast(e)]
  {
    var count := repository.UpsertEvent(e, None);
    match count
    case Err(_) =>
      emitted := [CommandResult(e.id, false, "rejected: event already exists")];
    case Ok(n) =>
      emitted := [CommandResult(e.id, true, if n != 0 then "" else "duplicate:")];
      if n != 0 {
        emitted := emitted + [Broadcast(e)];
      }
  }
}
