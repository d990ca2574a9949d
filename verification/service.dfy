/**
 The in-memory note store: a table from identifier to note and a counter
 that issues identifiers, starting at 1.

 The first half states the store's behaviour on values (Store and the
 functions Get, Create, Update, Delete), its representation invariant, and
 what holds across any sequence of operations. The class NoteService is the
 stateful store; each of its methods is proved to move its state exactly as
 the matching function says.
 */
module Service {
  import opened Wrappers
  import opened Model

  /** The store's whole state: the table and the next id to issue. */
  datatype Store = Store(notes: map<int, NoteData>, next: nat)

  /** A new store: no notes, the counter at 1. */
  function Empty(): Store {
    Store(map[], 1)
  }

  /** Representation invariant: each key is its note's id, lies below the
      counter, and its note carries both timestamps. */
  ghost predicate Invariant(s: Store) {
    && 1 <= s.next
    && forall k :: k in s.notes ==>
         && 1 <= k < s.next
         && s.notes[k].id == Some(k)
         && s.notes[k].createdAt.Some?
         && s.notes[k].updatedAt.Some?
  }

  /** Every stored note satisfies the title and body constraints. */
  ghost predicate ContentValid(s: Store) {
    forall k :: k in s.notes ==> ValidContent(s.notes[k])
  }

  // ---------------------------------------------------------------------------
  // The five operations, on values
  // ---------------------------------------------------------------------------

  /** getNoteById */
  function Get(s: Store, id: int): Option<NoteData> {
    if id in s.notes then Some(s.notes[id]) else None
  }

  /** createNote: the candidate gets the counter's value as id and two
      clock readings as timestamps, and is stored under its id; the counter
      moves on by one. Returns the new store and the stored note. */
  function Create(s: Store, candidate: NoteData, createdNow: nat, updatedNow: nat): (Store, NoteData) {
    var n := candidate.(id := Some(s.next), createdAt := Some(createdNow), updatedAt := Some(updatedNow));
    (Store(s.notes[s.next := n], s.next + 1), n)
  }

  /** updateNote: a stored note gets the new title and body and a fresh
      updatedAt; an unknown id changes nothing. */
  function Update(s: Store, id: int, title: Option<string>, body: Option<string>, now: nat)
    : (Store, Option<NoteData>)
  {
    if id in s.notes then
      var n := s.notes[id].(title := title, body := body, updatedAt := Some(now));
      (s.(notes := s.notes[id := n]), Some(n))
    else
      (s, None)
  }

  /** deleteNote: the entry goes; the result says whether there was one. */
  function Delete(s: Store, id: int): (Store, bool) {
    (s.(notes := s.notes - {id}), id in s.notes)
  }

  /** getAllNotes: r holds every stored note once, in some order. */
  ghost predicate IsListing(s: Store, r: seq<NoteData>) {
    && |r| == |s.notes|
    && (forall i, j :: 0 <= i < j < |r| ==> r[i] != r[j])
    && (forall i :: 0 <= i < |r| ==> r[i] in s.notes.Values)
    && (forall k :: k in s.notes ==> s.notes[k] in r)
  }

  // ---------------------------------------------------------------------------
  // One operation at a time
  // ---------------------------------------------------------------------------

  lemma EmptyStore(id: int, title: Option<string>, body: Option<string>, now: nat)
    ensures Invariant(Empty()) && ContentValid(Empty()) && StampedBy(Empty(), 0)
    ensures Get(Empty(), id) == None
    ensures Update(Empty(), id, title, body, now) == (Empty(), None)
    ensures Delete(Empty(), id) == (Empty(), false)
  {
  }

  lemma GetFindsStoredNote(s: Store, id: int)
    requires Invariant(s)
    ensures Get(s, id).Some? <==> id in s.notes
    ensures Get(s, id).Some? ==> Get(s, id).value.id == Some(id)
  {
  }

  /** The new note's id is the counter's old value, which no stored note
      has; a following get returns it with the candidate's title and body;
      nothing else changes and the invariant is kept. */
  lemma CreateSpec(s: Store, candidate: NoteData, createdNow: nat, updatedNow: nat)
    requires Invariant(s)
    ensures var (s', n) := Create(s, candidate, createdNow, updatedNow);
      && n.id == Some(s.next)
      && s.next !in s.notes
      && s'.next == s.next + 1
      && Get(s', s.next) == Some(n)
      && n.title == candidate.title && n.body == candidate.body
      && n.createdAt == Some(createdNow) && n.updatedAt == Some(updatedNow)
      && (forall k :: k != s.next ==> Get(s', k) == Get(s, k))
      && Invariant(s')
  {
  }

  /** Two successive creates hand out distinct, increasing ids. */
  lemma CreateTwice(s: Store, c1: NoteData, c2: NoteData, t1: nat, t2: nat, t3: nat, t4: nat)
    requires Invariant(s)
    ensures var (s1, n1) := Create(s, c1, t1, t2);
            var (s2, n2) := Create(s1, c2, t3, t4);
      && n1.id.Some? && n2.id.Some? && n1.id.value < n2.id.value
      && Get(s2, n1.id.value) == Some(n1) && Get(s2, n2.id.value) == Some(n2)
  {
  }

  lemma CreateKeepsContentValid(s: Store, candidate: NoteData, createdNow: nat, updatedNow: nat)
    requires ContentValid(s) && ValidContent(candidate)
    ensures ContentValid(Create(s, candidate, createdNow, updatedNow).0)
  {
  }

  /** On a stored id: title and body replaced, updatedAt set, id and
      createdAt kept, other entries and the counter untouched. */
  lemma UpdatePresent(s: Store, id: int, title: Option<string>, body: Option<string>, now: nat)
    requires Invariant(s) && id in s.notes
    ensures var (s', r) := Update(s, id, title, body, now);
      && r.Some?
      && r.value.id == Some(id)
      && r.value.title == title && r.value.body == body
      && r.value.createdAt == s.notes[id].createdAt
      && r.value.updatedAt == Some(now)
      && Get(s', id) == r
      && s'.next == s.next
      && (forall k :: k != id ==> Get(s', k) == Get(s, k))
      && Invariant(s')
  {
  }

  /** On an unknown id: absent, and the store is the same. */
  lemma UpdateAbsent(s: Store, id: int, title: Option<string>, body: Option<string>, now: nat)
    requires id !in s.notes
    ensures Update(s, id, title, body, now) == (s, None)
  {
  }

  /** With a clock that has moved past the note's creation, the update is
      stamped strictly after it. */
  lemma UpdateIsLater(s: Store, id: int, title: Option<string>, body: Option<string>, now: nat)
    requires Invariant(s) && id in s.notes && now > s.notes[id].createdAt.value
    ensures var r := Update(s, id, title, body, now).1;
      r.Some? && r.value.updatedAt.value > r.value.createdAt.value
  {
  }

  lemma UpdateKeepsContentValid(s: Store, id: int, title: Option<string>, body: Option<string>, now: nat)
    requires ContentValid(s) && ValidTitle(title) && ValidBody(body)
    ensures ContentValid(Update(s, id, title, body, now).0)
  {
  }

  /** Delete reports whether the id was stored, the id is gone afterwards
      (so a second delete reports false), the rest is untouched. */
  lemma DeleteSpec(s: Store, id: int)
    requires Invariant(s)
    ensures var (s', removed) := Delete(s, id);
      && (removed <==> id in s.notes)
      && Get(s', id) == None
      && !Delete(s', id).1
      && s'.next == s.next
      && (forall k :: k != id ==> Get(s', k) == Get(s, k))
      && Invariant(s')
      && (ContentValid(s) ==> ContentValid(s'))
  {
  }

  /** getAllNotes on a new store is empty; after two creates it holds
      exactly the two created notes. */
  lemma ListingAfterCreates(c1: NoteData, c2: NoteData, t1: nat, t2: nat, t3: nat, t4: nat, r0: seq<NoteData>, r: seq<NoteData>)
    requires IsListing(Empty(), r0)
    requires IsListing(Create(Create(Empty(), c1, t1, t2).0, c2, t3, t4).0, r)
    ensures r0 == []
    ensures |r| == 2
    ensures Create(Empty(), c1, t1, t2).1 in r
    ensures Create(Create(Empty(), c1, t1, t2).0, c2, t3, t4).1 in r
  {
    var (s1, n1) := Create(Empty(), c1, t1, t2);
    var (s2, n2) := Create(s1, c2, t3, t4);
    assert s2.notes.Keys == {1, 2};
    assert s2.notes[1] == n1 && s2.notes[2] == n2;
  }

  // ---------------------------------------------------------------------------
  // Any sequence of operations
  // ---------------------------------------------------------------------------

  datatype Op =
    | CreateOp(candidate: NoteData, createdNow: nat, updatedNow: nat)
    | UpdateOp(id: int, title: Option<string>, body: Option<string>, now: nat)
    | DeleteOp(id: int)

  function Step(s: Store, op: Op): Store {
    match op
    case CreateOp(c, t1, t2) => Create(s, c, t1, t2).0
    case UpdateOp(id, t, b, now) => Update(s, id, t, b, now).0
    case DeleteOp(id) => Delete(s, id).0
  }

  function Run(s: Store, ops: seq<Op>): Store
    decreases |ops|
  {
    if ops == [] then s else Run(Step(s, ops[0]), ops[1..])
  }

  /** The ids of the notes the creates in ops return, in order. */
  function IssuedIds(s: Store, ops: seq<Op>): seq<int>
    decreases |ops|
  {
    if ops == [] then []
    else
      var issued := match ops[0]
        case CreateOp(c, t1, t2) => [Create(s, c, t1, t2).1.id.value]
        case _ => [];
      issued + IssuedIds(Step(s, ops[0]), ops[1..])
  }

  /** Every operation keeps the representation invariant. */
  lemma {:induction false} RunKeepsInvariant(s: Store, ops: seq<Op>)
    requires Invariant(s)
    ensures Invariant(Run(s, ops))
    decreases |ops|
  {
    if ops != [] {
      var s' := Step(s, ops[0]);
      match ops[0] {
        case CreateOp(c, t1, t2) => CreateSpec(s, c, t1, t2);
        case UpdateOp(id, t, b, now) =>
          if id in s.notes { UpdatePresent(s, id, t, b, now); }
        case DeleteOp(id) => DeleteSpec(s, id);
      }
      RunKeepsInvariant(s', ops[1..]);
    }
  }

  /** Create, update and delete with valid content keep every note valid. */
  lemma {:induction false} RunKeepsContentValid(s: Store, ops: seq<Op>)
    requires ContentValid(s)
    requires forall i :: 0 <= i < |ops| && ops[i].CreateOp? ==> ValidContent(ops[i].candidate)
    requires forall i :: 0 <= i < |ops| && ops[i].UpdateOp? ==> ValidTitle(ops[i].title) && ValidBody(ops[i].body)
    ensures ContentValid(Run(s, ops))
    decreases |ops|
  {
    if ops != [] {
      match ops[0] {
        case CreateOp(c, t1, t2) => CreateKeepsContentValid(s, c, t1, t2);
        case UpdateOp(id, t, b, now) => UpdateKeepsContentValid(s, id, t, b, now);
        case DeleteOp(id) =>
      }
      assert forall i :: 0 <= i < |ops[1..]| ==> ops[1..][i] == ops[i + 1];
      RunKeepsContentValid(Step(s, ops[0]), ops[1..]);
    }
  }

  /** Every stored note was created no later than its last update, and
      updated no later than the clock reading t. */
  ghost predicate StampedBy(s: Store, t: nat) {
    forall k :: k in s.notes ==>
      && s.notes[k].createdAt.Some? && s.notes[k].updatedAt.Some?
      && s.notes[k].createdAt.value <= s.notes[k].updatedAt.value <= t
  }

  /** The clock readings op takes do not go back from t, and createNote's
      reading for createdAt comes before its reading for updatedAt. */
  predicate ReadsClockFrom(t: nat, op: Op) {
    match op
    case CreateOp(_, t1, t2) => t <= t1 <= t2
    case UpdateOp(_, _, _, now) => t <= now
    case DeleteOp(_) => true
  }

  /** The latest clock reading after op, starting from t. */
  function ClockAfter(t: nat, op: Op): nat {
    match op
    case CreateOp(_, _, t2) => t2
    case UpdateOp(_, _, _, now) => now
    case DeleteOp(_) => t
  }

  /** The clock never goes back over ops, starting from t. */
  predicate ClockNeverGoesBack(t: nat, ops: seq<Op>)
    decreases |ops|
  {
    ops == [] || (ReadsClockFrom(t, ops[0]) && ClockNeverGoesBack(ClockAfter(t, ops[0]), ops[1..]))
  }

  function FinalClock(t: nat, ops: seq<Op>): nat
    decreases |ops|
  {
    if ops == [] then t else FinalClock(ClockAfter(t, ops[0]), ops[1..])
  }

  /** With a clock that never goes back, every stored note keeps
      createdAt <= updatedAt, whatever sequence of operations runs. */
  lemma {:induction false} RunKeepsTimestampOrder(s: Store, t: nat, ops: seq<Op>)
    requires StampedBy(s, t) && ClockNeverGoesBack(t, ops)
    ensures StampedBy(Run(s, ops), FinalClock(t, ops))
    ensures forall k :: k in Run(s, ops).notes ==>
      Run(s, ops).notes[k].createdAt.value <= Run(s, ops).notes[k].updatedAt.value
    decreases |ops|
  {
    if ops != [] {
      var s', t' := Step(s, ops[0]), ClockAfter(t, ops[0]);
      assert StampedBy(s', t') by {
        forall k | k in s'.notes
          ensures s'.notes[k].createdAt.Some? && s'.notes[k].updatedAt.Some?
          ensures s'.notes[k].createdAt.value <= s'.notes[k].updatedAt.value <= t'
        {
          match ops[0] {
            case CreateOp(c, t1, t2) =>
            case UpdateOp(id, title, body, now) =>
            case DeleteOp(id) =>
          }
        }
      }
      RunKeepsTimestampOrder(s', t', ops[1..]);
    }
  }

  /** The counter advances by exactly the number of creates and never goes
      back; the ids issued are strictly increasing, from the counter's
      value on. */
  lemma {:induction false} IssuedIdsIncrease(s: Store, ops: seq<Op>)
    ensures var ids := IssuedIds(s, ops);
      && Run(s, ops).next == s.next + |ids|
      && (forall i :: 0 <= i < |ids| ==> ids[i] == s.next + i)
      && (forall i, j :: 0 <= i < j < |ids| ==> ids[i] < ids[j])
    decreases |ops|
  {
    if ops != [] {
      IssuedIdsIncrease(Step(s, ops[0]), ops[1..]);
    }
  }

  /** A key present after ops was either present before or issued by one of
      the creates in ops. */
  lemma {:induction false} NewKeysAreIssued(s: Store, ops: seq<Op>, k: int)
    requires k in Run(s, ops).notes
    ensures k in s.notes || k in IssuedIds(s, ops)
    decreases |ops|
  {
    if ops != [] {
      var s' := Step(s, ops[0]);
      NewKeysAreIssued(s', ops[1..], k);
      var rest := IssuedIds(s', ops[1..]);
      assert IssuedIds(s, ops) == IssuedIds(s, ops)[..|IssuedIds(s, ops)| - |rest|] + rest;
      if k in s'.notes && k !in s.notes {
        assert ops[0].CreateOp?;
        assert k == s.next;
        assert IssuedIds(s, ops)[0] == k;
      }
    }
  }

  /** Ids are never reused: once deleted, an id is not handed out again and
      never reappears as a key, whatever follows. */
  lemma DeletedIdNeverReturns(s: Store, id: int, ops: seq<Op>)
    requires Invariant(s) && id in s.notes
    ensures var s' := Delete(s, id).0;
      id !in IssuedIds(s', ops) && id !in Run(s', ops).notes
  {
    var s' := Delete(s, id).0;
    IssuedIdsIncrease(s', ops);
    if id in Run(s', ops).notes {
      NewKeysAreIssued(s', ops, id);
    }
  }

  /** A non-empty set of ids has an element. */
  lemma NonEmptyHasElement(keys: set<int>)
    requires keys != {}
    ensures exists k :: k in keys
  {
    if forall k :: k !in keys {
      assert false;
    }
  }

  // ---------------------------------------------------------------------------
  // The stateful store
  // ---------------------------------------------------------------------------

  class NoteService {
    var notes: map<int, NoteData>
    var next: nat

    function State(): Store
      reads this
    {
      Store(notes, next)
    }

    ghost predicate Valid()
      reads this
    {
      Invariant(State())
    }

    constructor ()
      ensures Valid() && State() == Empty()
    {
      notes := map[];
      next := 1;
    }

    /** A copy of the stored notes, one per key, in the table's order. */
    method GetAllNotes() returns (r: seq<NoteData>)
      requires Valid()
      ensures IsListing(State(), r)
      ensures forall i :: 0 <= i < |r| ==> r[i].id.Some? && Get(State(), r[i].id.value) == Some(r[i])
    {
      var rest := notes.Keys;
      ghost var done: set<int> := {};
      r := [];
      while rest != {}
        invariant rest !! done && rest + done == notes.Keys
        invariant |r| == |done|
        invariant forall i :: 0 <= i < |r| ==>
          r[i].id.Some? && r[i].id.value in done && notes[r[i].id.value] == r[i]
        invariant forall i, j :: 0 <= i < j < |r| ==> r[i] != r[j]
        invariant forall k :: k in done ==> notes[k] in r
        decreases rest
      {
        NonEmptyHasElement(rest);
        var key :| key in rest;
        assert forall i :: 0 <= i < |r| ==> r[i].id != Some(key);
        r := r + [notes[key]];
        rest := rest - {key};
        done := done + {key};
      }
    }

    method GetNoteById(id: int) returns (r: Option<NoteData>)
      requires Valid()
      ensures r == Get(State(), id)
      ensures r.Some? <==> id in notes
      ensures r.Some? ==> r.value.id == Some(id)
    {
      if id in notes {
        r := Some(notes[id]);
      } else {
        r := None;
      }
    }

    /** Stamps the caller's note with the next id and two clock readings,
        stores its fields under that id and returns the same note. */
    method CreateNote(note: Note, createdNow: nat, updatedNow: nat) returns (created: Note)
      requires Valid()
      modifies this, note
      ensures Valid()
      ensures created == note
      ensures (State(), note.Data()) == Create(old(State()), old(note.Data()), createdNow, updatedNow)
    {
      note.SetId(Some(next));
      next := next + 1;
      note.SetCreatedAt(Some(createdNow));
      note.SetUpdatedAt(Some(updatedNow));
      notes := notes[note.id.value := note.Data()];
      created := note;
      CreateSpec(old(State()), old(note.Data()), createdNow, updatedNow);
    }

    /** Copies title and body from details onto the stored note and stamps
        it; absent when the id is not stored. The details are read only for a
        stored id, so they may be null when the id is unknown. */
    method UpdateNote(id: int, details: Note?, now: nat) returns (r: Option<NoteData>)
      requires Valid()
      requires id in notes ==> details != null
      modifies this
      ensures Valid()
      ensures details != null ==> (State(), r) == Update(old(State()), id, details.title, details.body, now)
      ensures details == null ==> r.None? && State() == old(State())
    {
      if id in notes {
        var existing := notes[id];
        existing := existing.(title := details.title);
        existing := existing.(body := details.body);
        existing := existing.(updatedAt := Some(now));
        notes := notes[id := existing];
        r := Some(existing);
      } else {
        r := None;
      }
      if id in old(notes) {
        UpdatePresent(old(State()), id, details.title, details.body, now);
      }
    }

    method DeleteNote(id: int) returns (removed: bool)
      requires Valid()
      modifies this
      ensures Valid()
      ensures (State(), removed) == Delete(old(State()), id)
    {
      removed := id in notes;
      notes := notes - {id};
    }
  }
}
