/**
The canonical schedule: the k-way merge of every thread's remaining requests, always taking the
request with the smallest (clock, tid) among the threads' first ones.
*/
module Merges {
  import opened Clocks

  /** All requests still to be served, thread by thread. */
  function Total(todo: seq<seq<nat>>): nat {
    if todo == [] then 0 else Total(todo[..|todo|-1]) + |todo[|todo|-1]|
  }

  /** The thread whose first request comes first, or -1 when nothing is left. */
  function MinHead(todo: seq<seq<nat>>): (r: int)
    ensures -1 <= r < |todo|
    ensures r >= 0 ==> todo[r] != []
  {
    if todo == [] then -1 else
      var n := |todo| - 1;
      var r := MinHead(todo[..n]);
      if todo[n] != [] && (r < 0 || Before(Stamp(todo[n][0], n), Stamp(todo[r][0], r))) then n else r
  }

  function Served(todo: seq<seq<nat>>, i: int): seq<seq<nat>>
    requires 0 <= i < |todo| && todo[i] != []
  {
    todo[i := todo[i][1..]]
  }

  lemma {:induction false} ServedIsLess(todo: seq<seq<nat>>, i: int)
    requires 0 <= i < |todo| && todo[i] != []
    ensures Total(Served(todo, i)) == Total(todo) - 1
  {
    var n := |todo| - 1;
    if i == n {
      assert Served(todo, i)[..n] == todo[..n];
    } else {
      ServedIsLess(todo[..n], i);
      assert Served(todo, i)[..n] == Served(todo[..n], i);
    }
  }

  function Merge(todo: seq<seq<nat>>): seq<Stamp>
    decreases Total(todo)
  {
    var i := MinHead(todo);
    if i < 0 then [] else
      ServedIsLess(todo, i);
      [Stamp(todo[i][0], i)] + Merge(Served(todo, i))
  }

  /** The thread whose first request precedes every other first request. */
  ghost predicate Leads(todo: seq<seq<nat>>, g: int) {
    && 0 <= g < |todo| && todo[g] != []
    && forall j :: 0 <= j < |todo| && j != g && todo[j] != [] ==>
          todo[g][0] < todo[j][0] || (todo[g][0] == todo[j][0] && g < j)
  }

  lemma {:induction false} MinHeadLeads(todo: seq<seq<nat>>)
    ensures if MinHead(todo) < 0 then forall j :: 0 <= j < |todo| ==> todo[j] == [] else Leads(todo, MinHead(todo))
  {
    if todo == [] {
    } else {
      MinHeadLeads(todo[..|todo|-1]);
    }
  }

  /** Serving the leader is what the merge does first. */
  lemma LeaderIsNext(todo: seq<seq<nat>>, g: int)
    requires Leads(todo, g)
    ensures Merge(todo) == [Stamp(todo[g][0], g)] + Merge(Served(todo, g))
  {
    MinHeadLeads(todo);
  }

  // ----- what the merge is

  ghost predicate Ascending(c: seq<nat>) {
    forall a, b :: 0 <= a < b < |c| ==> c[a] <= c[b]
  }

  /** The clocks of thread i's turns, in the order of the schedule. */
  function TurnsOf(g: seq<Stamp>, i: int): seq<nat> {
    if g == [] then [] else (if g[0].tid == i then [g[0].clock] else []) + TurnsOf(g[1..], i)
  }

  /** Every thread gets exactly its own requests, in its own order. */
  lemma {:induction false} MergeServesEveryRequest(todo: seq<seq<nat>>, i: int)
    requires 0 <= i < |todo|
    ensures TurnsOf(Merge(todo), i) == todo[i]
    decreases Total(todo)
  {
    MinHeadLeads(todo);
    var m := MinHead(todo);
    if m >= 0 {
      ServedIsLess(todo, m);
      var rest := Served(todo, m);
      MergeServesEveryRequest(rest, i);
      assert Merge(todo)[1..] == Merge(rest);
      assert todo[m] == [todo[m][0]] + todo[m][1..];
    }
  }

  ghost predicate InTurnOrder(g: seq<Stamp>) {
    forall a, b :: 0 <= a < b < |g| ==> g[a].clock < g[b].clock || (g[a].clock == g[b].clock && g[a].tid <= g[b].tid)
  }

  /** Every stamp of the merge is one of the requests still to be served, so not before its thread's first. */
  lemma {:induction false} MergeStartsAtHeads(todo: seq<seq<nat>>, k: nat)
    requires k < |Merge(todo)| && forall i :: 0 <= i < |todo| ==> Ascending(todo[i])
    ensures var g := Merge(todo)[k];
            0 <= g.tid < |todo| && todo[g.tid] != [] && todo[g.tid][0] <= g.clock
    decreases Total(todo)
  {
    var m := MinHead(todo);
    if k > 0 {
      ServedIsLess(todo, m);
      MergeStartsAtHeads(Served(todo, m), k - 1);
    }
  }

  /** Served in (clock, tid) order. */
  lemma {:induction false} MergeIsInTurnOrder(todo: seq<seq<nat>>)
    requires forall i :: 0 <= i < |todo| ==> Ascending(todo[i])
    ensures InTurnOrder(Merge(todo))
    decreases Total(todo)
  {
    MinHeadLeads(todo);
    var m := MinHead(todo);
    if m >= 0 {
      ServedIsLess(todo, m);
      var rest := Served(todo, m);
      MergeIsInTurnOrder(rest);
      var first := Stamp(todo[m][0], m);
      forall k | 0 <= k < |Merge(rest)| ensures NotAfter(first, Merge(rest)[k]) {
        MergeStartsAtHeads(rest, k);
        var g := Merge(rest)[k];
        assert g.tid == m ==> rest[m] == todo[m][1..];
      }
    }
  }

  // ----- requests from chunk lengths

  /** A thread that starts at `clock` and runs chunks of the given lengths asks for a turn after each. */
  function Requests(clock: nat, chunks: seq<nat>): seq<nat>
    decreases |chunks|
  {
    if chunks == [] then [] else [clock + chunks[0]] + Requests(clock + chunks[0], chunks[1..])
  }

  lemma {:induction false} RequestsAscend(clock: nat, chunks: seq<nat>)
    ensures |Requests(clock, chunks)| == |chunks| && Ascending(Requests(clock, chunks))
    ensures forall k :: 0 <= k < |chunks| ==> clock <= Requests(clock, chunks)[k]
    decreases |chunks|
  {
    if chunks == [] {
    } else {
      RequestsAscend(clock + chunks[0], chunks[1..]);
    }
  }
}
