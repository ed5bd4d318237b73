/** The write-through memory store (agents/memory/persistent_store.py). */
module PersistentStore {
  import opened Sequences
  import opened MemoryRecords
  import opened MemoryStore

  /** A row holds a record of a known kind, data of a known kind that no longer parses, or an unknown kind. */
  datatype Content = Readable(entry: Entry) | Corrupt | Foreign

  datatype Row = Row(id: nat, content: Content, owner: Option<string>)

  function NotErased(owner: string, left: set<nat>): Row -> bool {
    (r: Row) => r.owner != Some(owner) || r.id in left
  }

  predicate HasRow(rows: seq<Row>, owner: string) {
    exists i :: 0 <= i < |rows| && rows[i].owner == Some(owner)
  }

  /** The rows a clear leaves: those of unknown kinds, and those it could not delete. */
  function Spared(left: set<nat>): Row -> bool {
    (r: Row) => r.content.Foreign? || r.id in left
  }

  /** The records a replay of these rows stores, oldest first; the others are skipped. */
  function Entries(rows: seq<Row>): seq<Entry> {
    if rows == [] then []
    else
      var last := rows[|rows| - 1].content;
      Entries(rows[..|rows| - 1]) + (if last.Readable? && Accepted(last.entry) then [last.entry] else [])
  }

  /** `find(order_by="id", descending=True, limit=max)` back in id order; a limit of 0 means no limit. */
  function Newest(rows: seq<Row>, max: nat): seq<Row> {
    if max == 0 || |rows| <= max then rows else rows[|rows| - max..]
  }

  /** The collection in the document store, in id order.  It can be unavailable, and other code may erase rows. */
  class Collection {
    var rows: seq<Row>
    var nextId: nat

    method Insert(content: Content, owner: Option<string>, available: bool) returns (ok: bool)
      modifies this
      ensures ok == available
      ensures rows == if ok then old(rows) + [Row(old(nextId), content, owner)] else old(rows)
      ensures nextId == if ok then old(nextId) + 1 else old(nextId)
    {
      if available {
        rows := rows + [Row(nextId, content, owner)];
        nextId := nextId + 1;
      }
      return available;
    }

    /** `delete_where` for every known kind, row by row; `left` are the rows it did not get to. */
    method DeleteKnownKinds(left: set<nat>)
      modifies this
      ensures rows == Filter(old(rows), Spared(left)) && nextId == old(nextId)
    {
      rows := Filter(rows, Spared(left));
    }

    /** `delete_where` for an owner, row by row; `left` are the rows it did not get to. */
    method EraseOwner(owner: string, left: set<nat>) returns (found: bool)
      modifies this
      ensures found == HasRow(old(rows), owner)
      ensures rows == Filter(old(rows), NotErased(owner, left)) && nextId == old(nextId)
    {
      found := exists i :: 0 <= i < |rows| && rows[i].owner == Some(owner);
      rows := Filter(rows, NotErased(owner, left));
    }
  }

  /** Rows and log together: what a write-through store is about. */
  datatype View = View(rows: seq<Row>, nextId: nat, log: seq<Entry>)

  /** A store whose insert succeeds or not, or a clear that deletes all known rows but some. */
  datatype Op = Store(entry: Entry, owner: Option<string>, inserted: bool) | Clear(left: set<nat>)

  /** The index is updated first, so a failed insert leaves a record that has no row. */
  function Apply(v: View, op: Op): View {
    match op
    case Store(e, owner, inserted) =>
      if !Accepted(e) then v
      else if inserted then View(v.rows + [Row(v.nextId, Readable(e), owner)], v.nextId + 1, v.log + [e])
      else v.(log := v.log + [e])
    case Clear(left) => View(Filter(v.rows, Spared(left)), v.nextId, [])
  }

  function Run(v: View, ops: seq<Op>): View {
    if ops == [] then v else Apply(Run(v, ops[..|ops| - 1]), ops[|ops| - 1])
  }

  function Loaded(rows: seq<Row>, nextId: nat, max: nat): View {
    View(rows, nextId, Entries(Newest(rows, max)))
  }

  /** A reload empties the index first, and leaves it so if the rows cannot be read. */
  function Reloaded(rows: seq<Row>, nextId: nat, max: nat, readable: bool): View {
    if readable then Loaded(rows, nextId, max) else View(rows, nextId, [])
  }

  /**
   * How far the erasure of an account gets: it stops at the memory rows or before them, it stops at one of the
   * collections behind them, or it is completed; then a reload, if there is one, may still fail to read the rows.
   */
  datatype Erasure = StoppedAt(left: set<nat>) | StoppedLater | Completed(readable: bool)

  function LeftBy(erasure: Erasure): set<nat> {
    if erasure.StoppedAt? then erasure.left else {}
  }

  /** The index is reloaded only by a completed erasure that found a memory row of the owner. */
  predicate Reloads(v: View, owner: string, erasure: Erasure) {
    erasure.Completed? && HasRow(v.rows, owner)
  }

  function Erased(v: View, owner: string, erasure: Erasure, max: nat): View {
    var rest := Filter(v.rows, NotErased(owner, LeftBy(erasure)));
    if Reloads(v, owner, erasure) then Reloaded(rest, v.nextId, max, erasure.readable) else v.(rows := rest)
  }

  /** How a store ends: ValueError for a blank identifier, StoreUnavailableError for a failed insert. */
  datatype Answer = Stored | Refused | Unavailable

  function AnswerTo(e: Entry, available: bool): Answer {
    if !Accepted(e) then Refused else if available then Stored else Unavailable
  }

  class PersistentMemoryStore {
    const store: Collection
    const index: InMemoryStore
    const maxRecords: nat

    ghost predicate Valid()
      reads index
    {
      index.Valid()
    }

    ghost function Now(): View
      reads store, index
    {
      View(store.rows, store.nextId, index.log)
    }

    constructor (store: Collection, maxRecords: nat)
      ensures Valid() && this.store == store && this.maxRecords == maxRecords && fresh(index)
      ensures Now() == Loaded(old(store.rows), old(store.nextId), maxRecords)
    {
      this.store, this.maxRecords := store, maxRecords;
      index := new InMemoryStore();
      new;
      Load();
    }

    method StoreExecution(r: ExecutionRecord, owner: Option<string>, available: bool) returns (a: Answer)
      requires Valid()
      modifies store, index
      ensures Valid() && a == AnswerTo(Execution(r), available)
      ensures Now() == Apply(old(Now()), Store(Execution(r), owner, available))
    {
      var accepted := index.StoreExecution(r);
      if !accepted {
        return Refused;
      }
      var ok := store.Insert(Readable(Execution(r)), owner, available);
      return if ok then Stored else Unavailable;
    }

    method StoreElement(r: ElementRecord, owner: Option<string>, available: bool) returns (a: Answer)
      requires Valid()
      modifies store, index
      ensures Valid() && a == AnswerTo(Element(r), available)
      ensures Now() == Apply(old(Now()), Store(Element(r), owner, available))
    {
      var accepted := index.StoreElement(r);
      if !accepted {
        return Refused;
      }
      var ok := store.Insert(Readable(Element(r)), owner, available);
      return if ok then Stored else Unavailable;
    }

    method StoreHealingRecord(r: HealingRecord, owner: Option<string>, available: bool) returns (a: Answer)
      requires Valid()
      modifies store, index
      ensures Valid() && a == AnswerTo(Healing(r), available)
      ensures Now() == Apply(old(Now()), Store(Healing(r), owner, available))
    {
      var accepted := index.StoreHealingRecord(r);
      if !accepted {
        return Refused;
      }
      var ok := store.Insert(Readable(Healing(r)), owner, available);
      return if ok then Stored else Unavailable;
    }

    method Clear(left: set<nat>)
      modifies store, index
      ensures Valid() && Now() == Apply(old(Now()), Op.Clear(left))
    {
      index.Clear();
      store.DeleteKnownKinds(left);
    }

    method Reload(readable: bool)
      modifies index
      ensures Valid() && Now() == Reloaded(old(store.rows), old(store.nextId), maxRecords, readable)
    {
      index.Clear();
      if readable {
        Load();
      }
    }

    /** An account is erased: its rows first, then, if there were any, the running store's copy of them. */
    method EraseAccount(owner: string, erasure: Erasure)
      requires Valid()
      modifies store, index
      ensures Valid() && Now() == Erased(old(Now()), owner, erasure, maxRecords)
    {
      var found := store.EraseOwner(owner, LeftBy(erasure));
      if erasure.Completed? && found {
        Reload(erasure.readable);
      }
    }

    method Load()
      requires Valid() && index.log == []
      modifies index
      ensures Valid() && index.log == Entries(Newest(store.rows, maxRecords))
    {
      var newest := Newest(store.rows, maxRecords);
      for i := 0 to |newest|
        invariant Valid() && index.log == Entries(newest[..i])
      {
        assert newest[..i + 1][..i] == newest[..i];
        match newest[i].content
        case Readable(Execution(r)) => var _ := index.StoreExecution(r);
        case Readable(Element(r)) => var _ := index.StoreElement(r);
        case Readable(Healing(r)) => var _ := index.StoreHealingRecord(r);
        case Corrupt => // a bad row is skipped
        case Foreign => // so is an unknown kind
      }
      assert newest[..|newest|] == newest;
    }
  }

  // ---- What the rows hold, against what the log holds ----

  lemma {:induction false} EntriesAppend(a: seq<Row>, b: seq<Row>)
    ensures Entries(a + b) == Entries(a) + Entries(b)
  {
    if b == [] {
      assert a + b == a;
    } else {
      assert (a + b)[..|a + b| - 1] == a + b[..|b| - 1];
      EntriesAppend(a, b[..|b| - 1]);
    }
  }

  /** What the last clear left behind. */
  function Left(v: View, ops: seq<Op>): seq<Entry> {
    if ops == [] then []
    else
      match ops[|ops| - 1]
      case Clear(left) => Entries(Filter(Run(v, ops[..|ops| - 1]).rows, Spared(left)))
      case Store(_, _, _) => Left(v, ops[..|ops| - 1])
  }

  /** What was in the log at the start or stored since the last clear, and has its row. */
  function Kept(log: seq<Entry>, ops: seq<Op>): seq<Entry> {
    if ops == [] then log
    else
      match ops[|ops| - 1]
      case Clear(_) => []
      case Store(e, _, inserted) =>
        Kept(log, ops[..|ops| - 1]) + (if Accepted(e) && inserted then [e] else [])
  }

  /** How many accepted records have failed to be inserted since the last clear. */
  function Lost(ops: seq<Op>): nat {
    if ops == [] || ops[|ops| - 1].Clear? then 0
    else
      var op := ops[|ops| - 1];
      Lost(ops[..|ops| - 1]) + (if Accepted(op.entry) && !op.inserted then 1 else 0)
  }

  /** The rows left out of the log at the start stay so until a clear. */
  function Skipped(ops: seq<Op>, skip: nat): nat {
    if ops == [] then skip else if ops[|ops| - 1].Clear? then 0 else Skipped(ops[..|ops| - 1], skip)
  }

  /** The rows but the k oldest, and the log, in terms of what was left, kept and lost. */
  ghost predicate Holds(w: View, k: nat, left: seq<Entry>, kept: seq<Entry>, lost: nat) {
    && k <= |w.rows| && Entries(w.rows[k..]) == left + kept
    && |w.log| == |kept| + lost && (lost == 0 ==> w.log == kept)
  }

  lemma ClearHolds(w: View, spared: set<nat>)
    ensures Holds(Apply(w, Op.Clear(spared)), 0, Entries(Filter(w.rows, Spared(spared))), [], 0)
  {
    var rows := Filter(w.rows, Spared(spared));
    assert rows[0..] == rows && Entries(rows) + [] == Entries(rows);
  }

  lemma StoreHolds(w: View, k: nat, left: seq<Entry>, kept: seq<Entry>, lost: nat, op: Op)
    requires op.Store? && Accepted(op.entry) && Holds(w, k, left, kept, lost)
    ensures op.inserted ==> Holds(Apply(w, op), k, left, kept + [op.entry], lost)
    ensures !op.inserted ==> Holds(Apply(w, op), k, left, kept, lost + 1)
  {
    if op.inserted {
      var row := Row(w.nextId, Readable(op.entry), op.owner);
      assert (w.rows + [row])[k..] == w.rows[k..] + [row];
      EntriesAppend(w.rows[k..], [row]);
      assert Entries([row][..0]) == [] && Entries([row]) == [op.entry];
      assert left + kept + [op.entry] == left + (kept + [op.entry]);
    }
  }

  /**
   * The rows hold what the last clear left and then what was kept, and the log what was kept and what was lost.
   * `skip` oldest rows were never read into the log at the start.
   */
  lemma {:induction false} RowsHold(v: View, ops: seq<Op>, skip: nat)
    requires skip <= |v.rows| && v.log == Entries(v.rows[skip..])
    ensures Holds(Run(v, ops), Skipped(ops, skip), Left(v, ops), Kept(v.log, ops), Lost(ops))
  {
    if ops == [] {
      assert [] + v.log == v.log;
    } else {
      var init, op := ops[..|ops| - 1], ops[|ops| - 1];
      RowsHold(v, init, skip);
      var w := Run(v, init);
      if op.Clear? {
        ClearHolds(w, op.left);
      } else if Accepted(op.entry) {
        StoreHolds(w, Skipped(init, skip), Left(v, init), Kept(v.log, init), Lost(init), op);
        assert Kept(v.log, init) + [] == Kept(v.log, init);
      } else {
        assert Kept(v.log, init) + [] == Kept(v.log, init);
      }
    }
  }

  /**
   * Write-through equals replay.  Start from any collection of at most `max` rows, store and clear in any way, and end
   * with at most `max`: a reload leaves in the log what the last clear left and what was inserted.  So after
   * clears that deleted everything it changes nothing iff no accepted record's insert has failed since the
   * last clear, and after inserts that all succeeded, iff the last clear left no record.
   */
  lemma ReloadChangesNothing(rows: seq<Row>, nextId: nat, ops: seq<Op>, max: nat)
    requires Newest(rows, max) == rows
    requires var w := Run(Loaded(rows, nextId, max), ops); Newest(w.rows, max) == w.rows
    ensures var v := Loaded(rows, nextId, max);
            var w := Run(v, ops);
            var reloaded := Loaded(w.rows, w.nextId, max);
            && reloaded.log == Left(v, ops) + Kept(v.log, ops)
            && (Left(v, ops) == [] ==> (reloaded == w <==> Lost(ops) == 0))
            && (Lost(ops) == 0 ==> (reloaded == w <==> Left(v, ops) == []))
  {
    var v := Loaded(rows, nextId, max);
    assert rows[0..] == rows;
    RowsHold(v, ops, 0);
    NothingSkipped(ops);
    var w := Run(v, ops);
    assert w.rows[0..] == w.rows;
    SameLog(Left(v, ops), Kept(v.log, ops), w.log, Lost(ops));
  }

  lemma SameLog(left: seq<Entry>, kept: seq<Entry>, log: seq<Entry>, lost: nat)
    requires |log| == |kept| + lost && (lost == 0 ==> log == kept)
    ensures left == [] ==> (left + kept == log <==> lost == 0)
    ensures lost == 0 ==> (left + kept == log <==> left == [])
  {
    assert left == [] ==> left + kept == kept;
    assert |left + kept| == |left| + |kept|;
  }

  lemma {:induction false} NothingSkipped(ops: seq<Op>)
    ensures Skipped(ops, 0) == 0
  {
    if ops != [] {
      NothingSkipped(ops[..|ops| - 1]);
    }
  }

  /** Beyond `max` rows a reload reads the newest only: the rows no longer read hold just what is then missing. */
  lemma ReloadForgetsExactlyTheOldest(rows: seq<Row>, nextId: nat, ops: seq<Op>, max: nat)
    requires Newest(rows, max) == rows
    ensures var v := Loaded(rows, nextId, max);
            var w := Run(v, ops);
            var unread := w.rows[..|w.rows| - |Newest(w.rows, max)|];
            var reloaded := Loaded(w.rows, w.nextId, max);
            && Entries(unread) + reloaded.log == Left(v, ops) + Kept(v.log, ops)
            && (Left(v, ops) == [] && Lost(ops) == 0 ==>
                 w.log == Entries(unread) + reloaded.log && (reloaded == w <==> Entries(unread) == []))
  {
    var v := Loaded(rows, nextId, max);
    assert rows[0..] == rows;
    RowsHold(v, ops, 0);
    NothingSkipped(ops);
    var w := Run(v, ops);
    assert w.rows[0..] == w.rows;
    var read := Newest(w.rows, max);
    var unread := w.rows[..|w.rows| - |read|];
    assert w.rows == unread + read;
    EntriesAppend(unread, read);
    SameLog(Entries(unread), Entries(read), Entries(unread) + Entries(read), |Entries(unread)|);
  }

  // ---- Erased accounts ----

  /** The owners of the rows a replay stores, in the order of `Entries`. */
  function OwnersOf(rows: seq<Row>): (who: seq<Option<string>>)
    ensures |who| == |Entries(rows)|
  {
    if rows == [] then []
    else
      var last := rows[|rows| - 1];
      OwnersOf(rows[..|rows| - 1])
      + (if last.content.Readable? && Accepted(last.content.entry) then [last.owner] else [])
  }

  /** The store's state and, for each record in its index, who stored it. */
  datatype History = History(view: View, who: seq<Option<string>>)

  datatype Act = Do(op: Op) | Erase(owner: string, erasure: Erasure) | Restart(readable: bool)

  function Next(h: History, act: Act, max: nat): History {
    match act
    case Do(Store(e, owner, inserted)) =>
      History(Apply(h.view, act.op), if Accepted(e) then h.who + [owner] else h.who)
    case Do(Clear(_)) => History(Apply(h.view, act.op), [])
    case Erase(owner, erasure) =>
      var after := Erased(h.view, owner, erasure, max);
      History(after, if Reloads(h.view, owner, erasure) then Whose(after, max, erasure.readable) else h.who)
    case Restart(readable) =>
      var after := Reloaded(h.view.rows, h.view.nextId, max, readable);
      History(after, Whose(after, max, readable))
  }

  function Whose(v: View, max: nat, readable: bool): seq<Option<string>> {
    if readable then OwnersOf(Newest(v.rows, max)) else []
  }

  function After(rows: seq<Row>, nextId: nat, acts: seq<Act>, max: nat): History {
    if acts == [] then History(Loaded(rows, nextId, max), OwnersOf(Newest(rows, max)))
    else Next(After(rows, nextId, acts[..|acts| - 1], max), acts[|acts| - 1], max)
  }

  /** The index holds a record that the owner stored. */
  predicate Remembers(h: History, owner: string) {
    Some(owner) in h.who
  }

  lemma {:induction false} OwnersHaveRows(rows: seq<Row>, owner: string)
    requires Some(owner) in OwnersOf(rows)
    ensures HasRow(rows, owner)
  {
    var n := |rows| - 1;
    if Some(owner) in OwnersOf(rows[..n]) {
      OwnersHaveRows(rows[..n], owner);
      var i :| 0 <= i < n && rows[..n][i].owner == Some(owner);
      assert rows[i].owner == Some(owner);
    } else {
      assert rows[n].owner == Some(owner);
    }
  }

  lemma RestHasNone(rows: seq<Row>, owner: string, max: nat)
    ensures Some(owner) !in OwnersOf(Newest(Filter(rows, NotErased(owner, {})), max))
  {
    var rest := Filter(rows, NotErased(owner, {}));
    if Some(owner) in OwnersOf(Newest(rest, max)) {
      OwnersHaveRows(Newest(rest, max), owner);
      var i :| 0 <= i < |Newest(rest, max)| && Newest(rest, max)[i].owner == Some(owner);
      var r := Newest(rest, max)[i];
      assert r in rest;
      FilterMember(rows, NotErased(owner, {}), r);
    }
  }

  /**
   * An erased account is forgotten by the running store iff the erasure was completed and found a memory row of the
   * owner, or nothing of the owner was in the index; otherwise the index keeps all it had.
   */
  lemma {:induction false} ErasedIsForgotten(h: History, owner: string, erasure: Erasure, max: nat)
    ensures var after := Next(h, Erase(owner, erasure), max);
            && (Remembers(after, owner) <==> Remembers(h, owner) && !Reloads(h.view, owner, erasure))
            && (!Reloads(h.view, owner, erasure) ==> after.who == h.who && after.view.log == h.view.log)
  {
    if Reloads(h.view, owner, erasure) {
      RestHasNone(h.view.rows, owner, max);
    }
  }

  lemma {:induction false} EntryHasRow(rows: seq<Row>, e: Entry) returns (r: Row)
    requires e in Entries(rows)
    ensures r in rows && r.content == Readable(e)
  {
    var last := rows[|rows| - 1];
    if e in Entries(rows[..|rows| - 1]) {
      r := EntryHasRow(rows[..|rows| - 1], e);
    } else {
      r := last;
    }
  }

  lemma NoRowLeft(rows: seq<Row>, owner: string)
    ensures !HasRow(Filter(rows, NotErased(owner, {})), owner)
  {
    var rest := Filter(rows, NotErased(owner, {}));
    if HasRow(rest, owner) {
      var i :| 0 <= i < |rest| && rest[i].owner == Some(owner);
      assert rest[i] in rest;
      FilterMember(rows, NotErased(owner, {}), rest[i]);
    }
  }

  /** The collection has a row for every record in the index. */
  ghost predicate Backed(log: seq<Entry>, rows: seq<Row>) {
    forall e :: e in log ==> exists r :: r in rows && r.content == Readable(e)
  }

  /**
   * After an erasure every record in the index has a row, of another owner or of none, iff the index was reloaded or
   * that was so before.
   */
  lemma {:induction false} ErasedIsBacked(v: View, owner: string, erasure: Erasure, max: nat)
    requires LeftBy(erasure) == {}
    ensures var after := Erased(v, owner, erasure, max);
            && !HasRow(after.rows, owner)
            && (Backed(after.log, after.rows)
                <==> Reloads(v, owner, erasure) || Backed(v.log, Filter(v.rows, NotErased(owner, {}))))
  {
    NoRowLeft(v.rows, owner);
    var after := Erased(v, owner, erasure, max);
    if Reloads(v, owner, erasure) {
      forall e | e in after.log ensures exists r :: r in after.rows && r.content == Readable(e) {
        var r := EntryHasRow(Newest(after.rows, max), e);
        assert r in after.rows;
      }
    }
  }

  /** Since the index was last built, an insert of the owner's failed, or an erasure of the owner stopped. */
  predicate Slipped(rows: seq<Row>, nextId: nat, acts: seq<Act>, max: nat, owner: string) {
    if acts == [] then false
    else
      var init := acts[..|acts| - 1];
      match acts[|acts| - 1]
      case Do(Store(e, o, inserted)) =>
        (Accepted(e) && o == Some(owner) && !inserted) || Slipped(rows, nextId, init, max, owner)
      case Do(Clear(_)) => false
      case Erase(o, erasure) =>
        && !Reloads(After(rows, nextId, init, max).view, o, erasure)
        && ((o == owner && !erasure.Completed?) || Slipped(rows, nextId, init, max, owner))
      case Restart(_) => false
  }

  /** What the index has of an owner with no slip is in the collection, too. */
  lemma {:induction false} RememberedHasRow(rows: seq<Row>, nextId: nat, acts: seq<Act>, max: nat, owner: string)
    requires Remembers(After(rows, nextId, acts, max), owner) && !Slipped(rows, nextId, acts, max, owner)
    ensures HasRow(After(rows, nextId, acts, max).view.rows, owner)
  {
    if acts == [] {
      NewestHasRow(rows, max, owner);
    } else {
      var init := acts[..|acts| - 1];
      var before := After(rows, nextId, init, max);
      match acts[|acts| - 1]
      case Do(Store(e, o, inserted)) =>
        if Remembers(before, owner) {
          RememberedHasRow(rows, nextId, init, max, owner);
          StoredKeepsRow(before.view, Store(e, o, inserted), owner);
        } else {
          NewRow(before.view, e, owner);
        }
      case Do(Clear(_)) =>
      case Restart(_) => NewestHasRow(before.view.rows, max, owner);
      case Erase(o, erasure) =>
        var rest := Filter(before.view.rows, NotErased(o, LeftBy(erasure)));
        if Reloads(before.view, o, erasure) {
          NewestHasRow(rest, max, owner);
        } else {
          RememberedHasRow(rows, nextId, init, max, owner);
          OtherRowsStay(before.view.rows, o, LeftBy(erasure), owner);
        }
    }
  }

  lemma NewestHasRow(rows: seq<Row>, max: nat, owner: string)
    requires Some(owner) in OwnersOf(Newest(rows, max))
    ensures HasRow(rows, owner)
  {
    OwnersHaveRows(Newest(rows, max), owner);
    var i :| 0 <= i < |Newest(rows, max)| && Newest(rows, max)[i].owner == Some(owner);
    assert rows[|rows| - |Newest(rows, max)| + i].owner == Some(owner);
  }

  lemma StoredKeepsRow(v: View, op: Op, owner: string)
    requires op.Store? && HasRow(v.rows, owner)
    ensures HasRow(Apply(v, op).rows, owner)
  {
    var i :| 0 <= i < |v.rows| && v.rows[i].owner == Some(owner);
    assert Apply(v, op).rows[i] == v.rows[i];
  }

  lemma NewRow(v: View, e: Entry, owner: string)
    requires Accepted(e)
    ensures HasRow(Apply(v, Store(e, Some(owner), true)).rows, owner)
  {
    assert Apply(v, Store(e, Some(owner), true)).rows[|v.rows|].owner == Some(owner);
  }

  lemma OtherRowsStay(rows: seq<Row>, erased: string, left: set<nat>, owner: string)
    requires HasRow(rows, owner) && (owner != erased || !HasRow(rows, erased))
    ensures HasRow(Filter(rows, NotErased(erased, left)), owner)
  {
    var i :| 0 <= i < |rows| && rows[i].owner == Some(owner);
    FilterMember(rows, NotErased(erased, left), rows[i]);
    var rest := Filter(rows, NotErased(erased, left));
    var j :| 0 <= j < |rest| && rest[j] == rows[i];
  }

  /**
   * So over every run of stores, clears, erasures and restarts: a completed erasure leaves a record of the owner in
   * the index only if one of the owner's inserts failed, or an earlier erasure of the owner stopped, since the index
   * was last built.
   */
  lemma {:induction false} OnlyWhatSlippedIsKept(rows: seq<Row>, nextId: nat, acts: seq<Act>, max: nat, owner: string,
                                                 readable: bool)
    requires Remembers(After(rows, nextId, acts + [Erase(owner, Completed(readable))], max), owner)
    ensures Slipped(rows, nextId, acts, max, owner) && Remembers(After(rows, nextId, acts, max), owner)
    ensures !HasRow(After(rows, nextId, acts, max).view.rows, owner)
  {
    assert (acts + [Erase(owner, Completed(readable))])[..|acts|] == acts;
    ErasedIsForgotten(After(rows, nextId, acts, max), owner, Completed(readable), max);
    if !Slipped(rows, nextId, acts, max, owner) {
      RememberedHasRow(rows, nextId, acts, max, owner);
    }
  }

  lemma AfterOne(rows: seq<Row>, nextId: nat, acts: seq<Act>, act: Act, max: nat)
    ensures After(rows, nextId, acts + [act], max) == Next(After(rows, nextId, acts, max), act, max)
  {
    assert (acts + [act])[..|acts|] == acts;
  }

  /** Whatever came before: the erasure of an owner without rows whose insert failed finds none, and forgets nothing. */
  lemma {:induction false} LostIsKept(rows: seq<Row>, nextId: nat, acts: seq<Act>, max: nat, e: Entry, owner: string,
                                      readable: bool)
    requires Accepted(e) && !HasRow(After(rows, nextId, acts, max).view.rows, owner)
    ensures var run := acts + [Do(Store(e, Some(owner), false))] + [Erase(owner, Completed(readable))];
            Remembers(After(rows, nextId, run, max), owner)
  {
    var stored := acts + [Do(Store(e, Some(owner), false))];
    AfterOne(rows, nextId, acts, Do(Store(e, Some(owner), false)), max);
    AfterOne(rows, nextId, stored, Erase(owner, Completed(readable)), max);
    ErasedIsForgotten(After(rows, nextId, stored, max), owner, Completed(readable), max);
  }

  /** Whatever came before: an erasure that stopped behind the memory rows is repeated in vain. */
  lemma {:induction false} StoppedIsKept(rows: seq<Row>, nextId: nat, acts: seq<Act>, max: nat, owner: string,
                                         readable: bool)
    requires Remembers(After(rows, nextId, acts, max), owner)
    ensures var run := acts + [Erase(owner, StoppedLater)] + [Erase(owner, Completed(readable))];
            Remembers(After(rows, nextId, run, max), owner)
  {
    var stopped := acts + [Erase(owner, StoppedLater)];
    AfterOne(rows, nextId, acts, Erase(owner, StoppedLater), max);
    AfterOne(rows, nextId, stopped, Erase(owner, Completed(readable)), max);
    var h := After(rows, nextId, acts, max);
    ErasedIsForgotten(h, owner, StoppedLater, max);
    NoRowLeft(h.view.rows, owner);
    ErasedIsForgotten(After(rows, nextId, stopped, max), owner, Completed(readable), max);
  }

  // ---- Who stored what ----

  /** The record was in a row with this owner at the start, or was stored by this owner. */
  ghost predicate Origin(rows: seq<Row>, acts: seq<Act>, e: Entry, owner: Option<string>) {
    || (exists r :: r in rows && r.content == Readable(e) && r.owner == owner)
    || (exists inserted :: Do(Store(e, owner, inserted)) in acts)
  }

  ghost predicate RowsHaveOrigin(now: seq<Row>, rows: seq<Row>, acts: seq<Act>) {
    forall r :: r in now && r.content.Readable? ==> Origin(rows, acts, r.content.entry, r.owner)
  }

  ghost predicate IndexHasOrigin(log: seq<Entry>, who: seq<Option<string>>, rows: seq<Row>, acts: seq<Act>) {
    |who| == |log| && forall i :: 0 <= i < |log| ==> Origin(rows, acts, log[i], who[i])
  }

  lemma {:induction false} OwnersOfEntries(now: seq<Row>, rows: seq<Row>, acts: seq<Act>)
    requires RowsHaveOrigin(now, rows, acts)
    ensures IndexHasOrigin(Entries(now), OwnersOf(now), rows, acts)
  {
    if now != [] {
      OwnersOfEntries(now[..|now| - 1], rows, acts);
      assert now[|now| - 1] in now;
    }
  }

  lemma OriginStays(rows: seq<Row>, acts: seq<Act>, act: Act, e: Entry, owner: Option<string>)
    requires Origin(rows, acts, e, owner)
    ensures Origin(rows, acts + [act], e, owner)
  {
    if inserted :| Do(Store(e, owner, inserted)) in acts {
      assert Do(Store(e, owner, inserted)) in acts + [act];
    }
  }

  lemma OriginsStay(h: History, rows: seq<Row>, acts: seq<Act>, act: Act)
    requires RowsHaveOrigin(h.view.rows, rows, acts) && IndexHasOrigin(h.view.log, h.who, rows, acts)
    ensures RowsHaveOrigin(h.view.rows, rows, acts + [act]) && IndexHasOrigin(h.view.log, h.who, rows, acts + [act])
  {
    forall r | r in h.view.rows && r.content.Readable? ensures Origin(rows, acts + [act], r.content.entry, r.owner) {
      OriginStays(rows, acts, act, r.content.entry, r.owner);
    }
    forall i | 0 <= i < |h.view.log| ensures Origin(rows, acts + [act], h.view.log[i], h.who[i]) {
      OriginStays(rows, acts, act, h.view.log[i], h.who[i]);
    }
  }

  lemma FilteredHaveOrigin(now: seq<Row>, p: Row -> bool, rows: seq<Row>, acts: seq<Act>)
    requires RowsHaveOrigin(now, rows, acts)
    ensures RowsHaveOrigin(Filter(now, p), rows, acts)
  {
    forall r | r in Filter(now, p) ensures r in now {
      FilterMember(now, p, r);
    }
  }

  lemma ReloadHasOrigin(v: View, max: nat, readable: bool, rows: seq<Row>, acts: seq<Act>)
    requires RowsHaveOrigin(v.rows, rows, acts)
    ensures IndexHasOrigin(Reloaded(v.rows, v.nextId, max, readable).log, Whose(v, max, readable), rows, acts)
  {
    var newest := Newest(v.rows, max);
    assert forall r :: r in newest ==> r in v.rows;
    OwnersOfEntries(newest, rows, acts);
  }

  lemma NextHasOrigin(h: History, rows: seq<Row>, acts: seq<Act>, act: Act, max: nat)
    requires act in acts
    requires RowsHaveOrigin(h.view.rows, rows, acts) && IndexHasOrigin(h.view.log, h.who, rows, acts)
    ensures var after := Next(h, act, max);
            RowsHaveOrigin(after.view.rows, rows, acts) && IndexHasOrigin(after.view.log, after.who, rows, acts)
  {
    match act
    case Do(Store(e, owner, inserted)) =>
      assert Origin(rows, acts, e, owner);
    case Do(Clear(left)) =>
      FilteredHaveOrigin(h.view.rows, Spared(left), rows, acts);
    case Restart(readable) =>
      ReloadHasOrigin(h.view, max, readable, rows, acts);
    case Erase(owner, erasure) =>
      var rest := Filter(h.view.rows, NotErased(owner, LeftBy(erasure)));
      FilteredHaveOrigin(h.view.rows, NotErased(owner, LeftBy(erasure)), rows, acts);
      if Reloads(h.view, owner, erasure) {
        ReloadHasOrigin(View(rest, h.view.nextId, []), max, erasure.readable, rows, acts);
      }
  }

  /** Over every run, each record in the index was stored by the owner it is put down to. */
  lemma {:induction false} WhoStoredWhat(rows: seq<Row>, nextId: nat, acts: seq<Act>, max: nat)
    ensures var h := After(rows, nextId, acts, max);
            && |h.who| == |h.view.log|
            && (forall i :: 0 <= i < |h.view.log| ==> Origin(rows, acts, h.view.log[i], h.who[i]))
            && RowsHaveOrigin(h.view.rows, rows, acts)
  {
    if acts == [] {
      ReloadHasOrigin(View(rows, nextId, []), max, true, rows, acts);
    } else {
      var init, act := acts[..|acts| - 1], acts[|acts| - 1];
      assert acts == init + [act];
      WhoStoredWhat(rows, nextId, init, max);
      OriginsStay(After(rows, nextId, init, max), rows, init, act);
      NextHasOrigin(After(rows, nextId, init, max), rows, acts, act, max);
    }
  }

  // ---- Clears, erasures and reloads, row by row ----

  /** A clear could not delete it, or does not know its kind. */
  predicate SurvivesClear(r: Row, left: set<nat>) {
    r.content == Foreign || r.id in left
  }

  /** Another owner's or nobody's, or the erasure did not get to it. */
  predicate SurvivesErasure(r: Row, owner: string, left: set<nat>) {
    r.owner == None || r.owner.value != owner || r.id in left
  }

  /** The rows left are these of the rows before, in order: position i comes behind as many as are left before it. */
  ghost predicate Remaining(before: seq<Row>, after: seq<Row>, left: seq<bool>) {
    && |left| == |before| && |after| == |set i | 0 <= i < |before| && left[i]|
    && forall i :: 0 <= i < |before| && left[i] ==>
         var n := |set j | 0 <= j < i && left[j]|;
         n < |after| && after[n] == before[i]
  }

  lemma {:induction false} FilterRemains(rows: seq<Row>, p: Row -> bool, left: seq<bool>)
    requires |left| == |rows| && forall i :: 0 <= i < |rows| ==> left[i] == p(rows[i])
    ensures Remaining(rows, Filter(rows, p), left)
  {
    FilterCounts(rows, p);
    assert Passing(rows, p) == set i | 0 <= i < |rows| && left[i];
    forall i | 0 <= i < |rows| && left[i]
      ensures var n := |set j | 0 <= j < i && left[j]|;
              n < |Filter(rows, p)| && Filter(rows, p)[n] == rows[i]
    {
      FilterAt(rows, p, i);
      assert Passing(rows[..i], p) == set j | 0 <= j < i && left[j];
    }
  }

  lemma {:induction false} ClearedByRow(v: View, spared: set<nat>)
    ensures var after := Apply(v, Op.Clear(spared));
            && Remaining(v.rows, after.rows, seq(|v.rows|, i requires 0 <= i < |v.rows| => SurvivesClear(v.rows[i], spared)))
            && after.log == [] && after.nextId == v.nextId
  {
    FilterRemains(v.rows, Spared(spared), seq(|v.rows|, i requires 0 <= i < |v.rows| => SurvivesClear(v.rows[i], spared)));
  }

  lemma {:induction false} ErasedByRow(v: View, owner: string, erasure: Erasure, max: nat)
    ensures var after, left := Erased(v, owner, erasure, max), if erasure.StoppedAt? then erasure.left else {};
            && Remaining(v.rows, after.rows,
                         seq(|v.rows|, i requires 0 <= i < |v.rows| => SurvivesErasure(v.rows[i], owner, left)))
            && after.nextId == v.nextId
  {
    var left := LeftBy(erasure);
    FilterRemains(v.rows, NotErased(owner, left),
                  seq(|v.rows|, i requires 0 <= i < |v.rows| => SurvivesErasure(v.rows[i], owner, left)));
  }

  predicate IsRecord(r: Row) { r.content.Readable? && Accepted(r.content.entry) }

  lemma {:induction false} EntriesAreFiltered(rows: seq<Row>)
    ensures |Entries(rows)| == |Filter(rows, IsRecord)|
    ensures forall i :: 0 <= i < |Entries(rows)| ==> Filter(rows, IsRecord)[i].content == Readable(Entries(rows)[i])
  {
    if rows != [] {
      var init, last := rows[..|rows| - 1], rows[|rows| - 1];
      EntriesAreFiltered(init);
      assert rows == init + [last];
      FilterAppend(init, [last], IsRecord);
    }
  }

  /**
   * A reload replays the newest max rows, all of them if max is 0: the index then holds the accepted records among
   * them in order, each behind as many as come before it.
   */
  lemma {:induction false} LoadedByRow(rows: seq<Row>, nextId: nat, max: nat)
    ensures var n := if max == 0 || max > |rows| then |rows| else max;
            var newest, log := rows[|rows| - n..], Loaded(rows, nextId, max).log;
            && |log| == |Passing(newest, IsRecord)|
            && forall i :: 0 <= i < n && IsRecord(newest[i]) ==>
                 var k := |Passing(newest[..i], IsRecord)|;
                 k < |log| && newest[i].content == Readable(log[k])
  {
    var n := if max == 0 || max > |rows| then |rows| else max;
    var newest := rows[|rows| - n..];
    assert newest == Newest(rows, max);
    EntriesAreFiltered(newest);
    FilterCounts(newest, IsRecord);
    forall i | 0 <= i < n && IsRecord(newest[i])
      ensures var k := |Passing(newest[..i], IsRecord)|;
              k < |Entries(newest)| && newest[i].content == Readable(Entries(newest)[k])
    {
      FilterAt(newest, IsRecord, i);
    }
  }
}
