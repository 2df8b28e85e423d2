/**
 Concurrent GetOrCreate calls: each looks the address up, inserts when it found
 nothing, and looks again when the insert hits the unique index on the address.
 Any number of calls for any addresses interleave with each other and with the
 plain inserts of the mailbox endpoints; no mailbox is deleted.
 */
module MailboxRace {
  datatype Pc = Looking | Inserting | LookingAgain | Returned(id: nat, created: bool) | GaveUp

  datatype Call = Call(address: string, pc: Pc)

  /** `others` are the rows no call can claim: inserted by an endpoint, or by a call that was told its insert failed. */
  datatype State = State(rows: map<nat, string>, nextId: nat, calls: map<nat, Call>, others: set<nat>)

  /** What the database does with an insert that the unique index allows. */
  datatype Insert = Inserted | InsertFailed | InsertLost

  datatype Event =
    | Begin(call: nat, address: string)
    | Look(call: nat, works: bool)
    | Create(call: nat, insert: Insert)
    | LookAgain(call: nat, works: bool)
    | Post(address: string, insert: Insert)

  predicate HasRow(rows: map<nat, string>, address: string) {
    exists id :: id in rows && rows[id] == address
  }

  /** The unique index: one row per address. */
  predicate Unique(rows: map<nat, string>) {
    forall i, j :: i in rows && j in rows && rows[i] == rows[j] ==> i == j
  }

  /** A lookup that works answers the row of the address. */
  ghost function Find(rows: map<nat, string>, address: string): (id: nat)
    requires HasRow(rows, address)
    ensures id in rows && rows[id] == address
  {
    var id :| id in rows && rows[id] == address;
    id
  }

  predicate At(s: State, call: nat, pc: Pc) {
    call in s.calls && s.calls[call].pc == pc
  }

  predicate Enabled(s: State, e: Event) {
    match e
    case Begin(c, _) => c !in s.calls
    case Look(c, _) => At(s, c, Looking)
    case Create(c, _) => At(s, c, Inserting)
    case LookAgain(c, _) => At(s, c, LookingAgain)
    case Post(_, _) => true
  }

  function Move(s: State, c: nat, pc: Pc): State
    requires c in s.calls
  {
    s.(calls := s.calls[c := s.calls[c].(pc := pc)])
  }

  ghost function Apply(s: State, e: Event): State
    requires Enabled(s, e)
  {
    match e
    case Begin(c, address) => s.(calls := s.calls[c := Call(address, Looking)])
    case Look(c, works) =>
      var address := s.calls[c].address;
      if !works then Move(s, c, GaveUp)
      else if HasRow(s.rows, address) then Move(s, c, Returned(Find(s.rows, address), false))
      else Move(s, c, Inserting)
    case Create(c, insert) =>
      var address := s.calls[c].address;
      if insert.InsertFailed? then Move(s, c, GaveUp)
      else if HasRow(s.rows, address) then Move(s, c, LookingAgain)
      else
        var t := s.(rows := s.rows[s.nextId := address], nextId := s.nextId + 1);
        if insert.InsertLost? then Move(t, c, GaveUp).(others := s.others + {s.nextId})
        else Move(t, c, Returned(s.nextId, true))
    case LookAgain(c, works) =>
      var address := s.calls[c].address;
      if works && HasRow(s.rows, address) then Move(s, c, Returned(Find(s.rows, address), false))
      else Move(s, c, GaveUp)
    case Post(address, insert) =>
      if insert.InsertFailed? || HasRow(s.rows, address) then s
      else s.(rows := s.rows[s.nextId := address], nextId := s.nextId + 1, others := s.others + {s.nextId})
  }

  /** An execution from a table that already obeys the index. */
  ghost predicate Execution(start: State, events: seq<Event>)
    decreases |events|, 0
  {
    events == [] || (
      var before := events[..|events| - 1];
      Execution(start, before) && Enabled(After(start, before), events[|events| - 1]))
  }

  ghost function After(start: State, events: seq<Event>): State
    requires Execution(start, events)
    decreases |events|, 1
  {
    if events == [] then start
    else Apply(After(start, events[..|events| - 1]), events[|events| - 1])
  }

  predicate Opening(s: State) {
    Unique(s.rows) && s.calls == map[] && s.others == {} && forall id :: id in s.rows ==> id < s.nextId
  }

  predicate Done(s: State, c: nat) {
    c in s.calls && s.calls[c].pc.Returned?
  }

  predicate CreatedBy(s: State, c: nat, id: nat) {
    At(s, c, Returned(id, true))
  }

  predicate Numbered(s: State) {
    Unique(s.rows) && forall id :: id in s.rows ==> id < s.nextId
  }

  /** Whoever returned has the row of its address. */
  ghost predicate Resolved(s: State) {
    forall c :: Done(s, c) ==> s.calls[c].pc.id in s.rows && s.rows[s.calls[c].pc.id] == s.calls[c].address
  }

  /** From id `first` on, every row is credited to the one call that created it, unless no call can claim it. */
  ghost predicate Credited(s: State, first: nat) {
    && (forall c: nat, d: nat, id: nat :: CreatedBy(s, c, id) && CreatedBy(s, d, id) ==> c == d)
    && (forall c: nat, id: nat :: CreatedBy(s, c, id) ==> first <= id < s.nextId && id !in s.others)
    && (forall id :: id in s.rows && first <= id && id !in s.others ==> exists c :: CreatedBy(s, c, id))
    && (forall id :: id in s.others ==> id < s.nextId)
    && first <= s.nextId
  }

  ghost predicate Inv(s: State, first: nat) {
    Numbered(s) && Resolved(s) && Credited(s, first)
  }

  lemma {:induction false} StepKeeps(s: State, e: Event, first: nat)
    requires Inv(s, first) && Enabled(s, e)
    ensures Inv(Apply(s, e), first)
  {
    NewRows(s, e);
    CreditStays(s, e, first);
    var t := Apply(s, e);
    forall c | Done(t, c)
      ensures t.calls[c].pc.id in t.rows && t.rows[t.calls[c].pc.id] == t.calls[c].address
    {
      if e.Post? || c != e.call {
        assert Done(s, c);
      }
    }
  }

  lemma CreditStays(s: State, e: Event, first: nat)
    requires Numbered(s) && Credited(s, first) && Enabled(s, e)
    ensures Credited(Apply(s, e), first)
  {
    var t := Apply(s, e);
    forall c, id
      ensures CreatedBy(t, c, id) <==>
              || CreatedBy(s, c, id)
              || (e.Create? && c == e.call && id == s.nextId && CreatedBy(t, c, id))
    {
    }
    forall id | id in t.rows && first <= id && id !in t.others
      ensures exists c :: CreatedBy(t, c, id)
    {
      if id in s.rows {
        var c :| CreatedBy(s, c, id);
        assert CreatedBy(t, c, id);
      } else if e.Create? {
        assert CreatedBy(t, e.call, id);
      }
    }
  }

  /** A step adds at most one row, with the next id, for an address that had none. */
  lemma NewRows(s: State, e: Event)
    requires Numbered(s) && Enabled(s, e)
    ensures var t := Apply(s, e);
            && Numbered(t) && s.nextId <= t.nextId
            && var address := if e.Post? then e.address else t.calls[e.call].address;
               t.rows == s.rows || t.rows == s.rows[s.nextId := address]
  {
  }

  lemma {:induction false} ExecutionKeeps(start: State, events: seq<Event>)
    requires Opening(start) && Execution(start, events)
    ensures Inv(After(start, events), start.nextId)
    ensures var rows := After(start, events).rows;
            forall id :: id in start.rows ==> id in rows && rows[id] == start.rows[id]
    decreases |events|
  {
    if events != [] {
      var before := events[..|events| - 1];
      ExecutionKeeps(start, before);
      StepKeeps(After(start, before), events[|events| - 1], start.nextId);
    }
  }

  /**
   In every interleaving, all calls that return for an address return the same
   mailbox and at most one of them says it created it. That mailbox is the one
   row of the address. None says so when the address had a row at the start;
   exactly one does when it had none and the row is no one else's.
   */
  lemma SameMailboxForAll(start: State, events: seq<Event>, c: nat, d: nat)
    requires Opening(start) && Execution(start, events)
    requires var s := After(start, events); Done(s, c) && Done(s, d) && s.calls[c].address == s.calls[d].address
    ensures var s := After(start, events);
            var address := s.calls[c].address;
            var id := s.calls[c].pc.id;
            && s.calls[d].pc.id == id
            && (forall row :: row in s.rows && s.rows[row] == address <==> row == id)
            && (s.calls[c].pc.created && s.calls[d].pc.created ==> c == d)
            && (HasRow(start.rows, address) ==> !s.calls[c].pc.created)
            && (!HasRow(start.rows, address) && id !in s.others ==> exists x :: CreatedBy(s, x, id))
  {
    ExecutionKeeps(start, events);
    var s := After(start, events);
    var address := s.calls[c].address;
    var id := s.calls[c].pc.id;
    assert s.rows[id] == s.rows[s.calls[d].pc.id];
    if s.calls[c].pc.created && s.calls[d].pc.created {
      assert CreatedBy(s, c, id) && CreatedBy(s, d, id);
    }
    assert s.calls[c].pc.created ==> CreatedBy(s, c, id);
    if HasRow(start.rows, address) {
      var row :| row in start.rows && start.rows[row] == address;
      assert s.rows[row] == address;
    } else if id < start.nextId {
      RowsGrowAbove(start, events, id);
    }
  }

  lemma StepAddsAbove(s: State, e: Event)
    requires Enabled(s, e)
    ensures Apply(s, e).nextId >= s.nextId
    ensures forall id :: id in Apply(s, e).rows && id < s.nextId ==> id in s.rows && Apply(s, e).rows[id] == s.rows[id]
  {
  }

  /** Rows that appear during the execution have new ids. */
  lemma {:induction false} RowsGrowAbove(start: State, events: seq<Event>, id: nat)
    requires Opening(start) && Execution(start, events)
    ensures After(start, events).nextId >= start.nextId
    ensures id in After(start, events).rows && id < start.nextId ==>
              id in start.rows && After(start, events).rows[id] == start.rows[id]
    decreases |events|
  {
    if events != [] {
      hide Apply, Opening;
      var before := events[..|events| - 1];
      StepAddsAbove(After(start, before), events[|events| - 1]);
      RowsGrowAbove(start, before, id);
    }
  }

  /** Whoever looks again does so because its address has a row. */
  ghost predicate RowsFound(s: State) {
    forall c :: At(s, c, LookingAgain) ==> HasRow(s.rows, s.calls[c].address)
  }

  lemma StepKeepsFound(s: State, e: Event)
    requires Numbered(s) && RowsFound(s) && Enabled(s, e)
    ensures RowsFound(Apply(s, e))
  {
    NewRows(s, e);
    var t := Apply(s, e);
    forall c | At(t, c, LookingAgain)
      ensures HasRow(t.rows, t.calls[c].address)
    {
      var address := t.calls[c].address;
      assert HasRow(s.rows, address);
      var id :| id in s.rows && s.rows[id] == address;
      assert id in t.rows && t.rows[id] == address;
    }
  }

  lemma {:induction false} ExecutionKeepsFound(start: State, events: seq<Event>)
    requires Opening(start) && Execution(start, events)
    ensures RowsFound(After(start, events))
    decreases |events|
  {
    if events != [] {
      var before := events[..|events| - 1];
      ExecutionKeepsFound(start, before);
      ExecutionKeeps(start, before);
      StepKeepsFound(After(start, before), events[|events| - 1]);
    }
  }

  /**
   Losing the race is no failure: at any point of any interleaving, a call whose
   database calls work returns a mailbox after at most its three own steps.
   */
  lemma WorkingCallReturns(start: State, events: seq<Event>, c: nat)
    requires Opening(start) && Execution(start, events)
    ensures var s := After(start, events);
            && (At(s, c, Looking) ==> Done(Apply(s, Look(c, true)), c) || At(Apply(s, Look(c, true)), c, Inserting))
            && (At(s, c, Inserting) ==>
                  Done(Apply(s, Create(c, Inserted)), c) || At(Apply(s, Create(c, Inserted)), c, LookingAgain))
            && (At(s, c, LookingAgain) ==> Done(Apply(s, LookAgain(c, true)), c))
  {
    ExecutionKeepsFound(start, events);
  }
}
