/** The table-driven state machine interpreter that tunnels and sessions run on. */
module Fsm {

  datatype Row<S, E, A> = Row(from: S, events: seq<E>, act: A, to: S)

  datatype Match<A, S> = NoRow | Found(act: A, to: S)

  predicate Fires<S(==), E(==), A>(row: Row<S, E, A>, current: S, e: E)
  {
    row.from == current && e in row.events
  }

  // The first row of the table, from row i on, for a state and an event.
  function LookupFrom<S(==), E(==), A>(table: seq<Row<S, E, A>>, i: nat, current: S, e: E): Match<A, S>
    requires i <= |table|
    decreases |table| - i
  {
    if i == |table| then NoRow
    else if Fires(table[i], current, e) then Found(table[i].act, table[i].to)
    else LookupFrom(table, i + 1, current, e)
  }

  lemma Unroll<S, E, A>(table: seq<Row<S, E, A>>, i: nat, current: S, e: E)
    requires i < |table|
    ensures LookupFrom(table, i, current, e)
         == if Fires(table[i], current, e) then Found(table[i].act, table[i].to)
            else LookupFrom(table, i + 1, current, e)
  {
  }

  function Lookup<S(==), E(==), A>(table: seq<Row<S, E, A>>, current: S, e: E): Match<A, S>
  {
    LookupFrom(table, 0, current, e)
  }

  // handleEvent's search, row by row and event by event.
  method FindRow<S(==), E(==), A>(table: seq<Row<S, E, A>>, current: S, e: E) returns (m: Match<A, S>)
    ensures m == Lookup(table, current, e)
  {
    for i := 0 to |table|
      invariant Lookup(table, current, e) == LookupFrom(table, i, current, e)
    {
      if table[i].from == current {
        for j := 0 to |table[i].events|
          invariant forall k | 0 <= k < j :: table[i].events[k] != e
        {
          if table[i].events[j] == e {
            return Found(table[i].act, table[i].to);
          }
        }
      }
    }
    return NoRow;
  }

  // Row i is the first for the state and the event.
  predicate FirstRow<S(==), E(==), A>(table: seq<Row<S, E, A>>, i: nat, current: S, e: E)
  {
    i < |table| && Fires(table[i], current, e) && forall j | 0 <= j < i :: !Fires(table[j], current, e)
  }

  lemma {:induction false} LookupFromExactly<S, E, A>(table: seq<Row<S, E, A>>, i: nat, current: S, e: E)
    requires i <= |table| && forall j | 0 <= j < i :: !Fires(table[j], current, e)
    ensures LookupFrom(table, i, current, e).NoRow? <==> forall j | 0 <= j < |table| :: !Fires(table[j], current, e)
    ensures forall j: nat | FirstRow(table, j, current, e) ::
              LookupFrom(table, i, current, e) == Found(table[j].act, table[j].to)
    decreases |table| - i
  {
    if i < |table| && !Fires(table[i], current, e) {
      LookupFromExactly(table, i + 1, current, e);
    }
  }

  /** The search gives the action and the next state of the first row that fits, and nothing exactly if none fits. */
  lemma LookupExactly<S, E, A>(table: seq<Row<S, E, A>>, current: S, e: E)
    ensures Lookup(table, current, e).NoRow? <==> forall j | 0 <= j < |table| :: !Fires(table[j], current, e)
    ensures forall j: nat | FirstRow(table, j, current, e) ::
              Lookup(table, current, e) == Found(table[j].act, table[j].to)
  {
    LookupFromExactly(table, 0, current, e);
  }
}
