/**
 Waiting for servers: all pending servers are visited once per round until each has served a request,
 died, or the time is up. Which servers are alive and answer in which round is arbitrary.
 */
module Polling {
  import opened Common

  /** What a visit in round r to server id finds. */
  datatype World = World(alive: (nat, nat) -> bool, serves: (nat, nat) -> bool)

  /** The verdict on a server after r rounds of visits: the first decisive visit counts. */
  function Verdict(w: World, id: nat, r: nat): Option<bool> {
    if r == 0 then None
    else
      var before := Verdict(w, id, r - 1);
      if before.Some? then before
      else if !w.alive(r - 1, id) then Some(false)
      else if w.serves(r - 1, id) then Some(true)
      else None
  }

  /** A server is healthy exactly when a visit found it alive and serving, and none before was decisive. */
  lemma {:induction false} HealthyMeaning(w: World, id: nat, r: nat)
    ensures Verdict(w, id, r) == Some(true) <==>
      exists k :: 0 <= k < r && w.alive(k, id) && w.serves(k, id)
                  && forall j :: 0 <= j < k ==> w.alive(j, id) && !w.serves(j, id)
    ensures Verdict(w, id, r) == None <==> forall j :: 0 <= j < r ==> w.alive(j, id) && !w.serves(j, id)
  {
    if r > 0 {
      HealthyMeaning(w, id, r - 1);
      var k := r - 1;
      if Verdict(w, id, k) == None && w.alive(k, id) && w.serves(k, id) {
        assert 0 <= k < r && forall j :: 0 <= j < k ==> w.alive(j, id) && !w.serves(j, id);
      }
    }
  }

  lemma {:induction false} VerdictStays(w: World, id: nat, r: nat, s: nat)
    requires r <= s && Verdict(w, id, r).Some?
    ensures Verdict(w, id, s) == Verdict(w, id, r)
  {
    if r < s {
      VerdictStays(w, id, r, s - 1);
    }
  }

  ghost predicate Undecided(w: World, ids: set<nat>, r: nat) {
    forall id :: id in ids ==> Verdict(w, id, r).None?
  }

  /** Pending and decided servers partition all servers, and the decided ones have their verdict. */
  ghost predicate Polled(w: World, all: set<nat>, pending: set<nat>, ready: map<nat, bool>, r: nat) {
    && pending + ready.Keys == all && pending !! ready.Keys
    && Undecided(w, pending, r)
    && forall id :: id in ready ==> Verdict(w, id, r) == Some(ready[id])
  }

  // ---- The visits made ----

  /** A visit: the round and the server. */
  type Visits = seq<(nat, nat)>

  /** How often server id is to be visited in round k of r: once while it has no verdict, then never. */
  function Due(w: World, all: set<nat>, r: nat, k: nat, id: nat): nat {
    if k < r && id in all && Verdict(w, id, k).None? then 1 else 0
  }

  ghost predicate InRounds(log: Visits) {
    forall i, j :: 0 <= i < j < |log| ==> log[i].0 <= log[j].0
  }

  /** The log of r rounds: round after round, every undecided server once and no decided one. */
  ghost predicate Complete(w: World, all: set<nat>, log: Visits, r: nat) {
    InRounds(log) && forall k, id :: multiset(log)[(k, id)] == Due(w, all, r, k, id)
  }

  /** The log in the middle of round r, with `done` visited. */
  ghost predicate Partial(w: World, all: set<nat>, log: Visits, r: nat, done: set<nat>) {
    && InRounds(log) && (forall i :: 0 <= i < |log| ==> log[i].0 <= r)
    && forall k, id :: multiset(log)[(k, id)] == if k == r && id in done then 1 else Due(w, all, r, k, id)
  }

  lemma CompleteUpTo(w: World, all: set<nat>, log: Visits, r: nat)
    requires Complete(w, all, log, r)
    ensures Partial(w, all, log, r, {})
  {
    forall i | 0 <= i < |log| ensures log[i].0 <= r {
      assert log[i] in multiset(log);
      assert multiset(log)[(log[i].0, log[i].1)] == Due(w, all, r, log[i].0, log[i].1);
    }
  }

  lemma VisitLogged(w: World, all: set<nat>, log: Visits, r: nat, done: set<nat>, id: nat)
    requires Partial(w, all, log, r, done) && id !in done
    ensures Partial(w, all, log + [(r, id)], r, done + {id})
  {
    assert multiset(log + [(r, id)]) == multiset(log) + multiset{(r, id)};
  }

  /** A round that visited exactly the undecided servers is complete. */
  lemma RoundLogged(w: World, all: set<nat>, log: Visits, r: nat, done: set<nat>)
    requires Partial(w, all, log, r, done) && forall id :: id in done <==> id in all && Verdict(w, id, r).None?
    ensures Complete(w, all, log, r + 1)
  {
  }

  /** Rounds in which nothing is pending would visit nobody. */
  lemma NothingDue(w: World, all: set<nat>, log: Visits, r: nat, s: nat)
    requires Complete(w, all, log, r) && r <= s && forall id :: id in all ==> Verdict(w, id, r).Some?
    ensures Complete(w, all, log, s)
  {
    forall k, id ensures Due(w, all, s, k, id) == Due(w, all, r, k, id) {
      if r <= k && id in all {
        VerdictStays(w, id, r, k);
      }
    }
  }

  /** In the middle of round r: `left` is still to be visited. */
  ghost predicate MidRound(w: World, all: set<nat>, left: set<nat>, pending: set<nat>, ready: map<nat, bool>, r: nat) {
    && left <= pending && pending + ready.Keys == all && pending !! ready.Keys
    && (forall id :: id in pending ==> if id in left then Verdict(w, id, r).None? else Verdict(w, id, r + 1).None?)
    && forall id :: id in ready ==> Verdict(w, id, r + 1) == Some(ready[id])
  }

  lemma RoundBegins(w: World, all: set<nat>, pending: set<nat>, ready: map<nat, bool>, r: nat)
    requires Polled(w, all, pending, ready, r)
    ensures MidRound(w, all, pending, pending, ready, r)
  {
    forall id | id in ready ensures Verdict(w, id, r + 1) == Some(ready[id]) {
      VerdictStays(w, id, r, r + 1);
    }
  }

  lemma Decide(w: World, all: set<nat>, left: set<nat>, pending: set<nat>, ready: map<nat, bool>, r: nat, id: nat, v: bool)
    requires MidRound(w, all, left, pending, ready, r) && id in left && Verdict(w, id, r + 1) == Some(v)
    ensures MidRound(w, all, left - {id}, pending - {id}, ready[id := v], r)
  {
    var ready1 := ready[id := v];
    assert ready1.Keys == ready.Keys + {id};
    assert (pending - {id}) + ready1.Keys == pending + ready.Keys;
  }

  lemma RoundEnds(w: World, all: set<nat>, pending: set<nat>, ready: map<nat, bool>, log: Visits, r: nat, done: set<nat>)
    requires Polled(w, all, pending, ready, r) && Partial(w, all, log, r, done) && done == pending
    ensures Complete(w, all, log, r + 1)
  {
    forall id ensures id in done <==> id in all && Verdict(w, id, r).None? {
      assert id in all <==> id in pending || id in ready.Keys;
    }
    RoundLogged(w, all, log, r, done);
  }

  /** The middle of round r over `start`, with what the log says of it. */
  ghost predicate Visiting(w: World, all: set<nat>, start: set<nat>, left: set<nat>, pending: set<nat>, ready: map<nat, bool>, r: nat, log: Visits) {
    MidRound(w, all, left, pending, ready, r) && left <= start && Partial(w, all, log, r, start - left)
  }

  lemma VisitingLogged(w: World, all: set<nat>, start: set<nat>, left: set<nat>, log: Visits, r: nat, id: nat)
    requires left <= start && id in left && Partial(w, all, log, r, start - left)
    ensures Partial(w, all, log + [(r, id)], r, start - (left - {id}))
  {
    VisitLogged(w, all, log, r, start - left, id);
    assert (start - left) + {id} == start - (left - {id});
  }

  /** Visit one pending server. */
  method Visit(w: World, id: nat, pending0: set<nat>, ready0: map<nat, bool>, r: nat,
               ghost all: set<nat>, ghost start: set<nat>, ghost left: set<nat>, ghost log0: Visits)
    returns (pending: set<nat>, ready: map<nat, bool>, ghost log: Visits)
    requires Visiting(w, all, start, left, pending0, ready0, r, log0) && id in left
    ensures Visiting(w, all, start, left - {id}, pending, ready, r, log) && log == log0 + [(r, id)]
  {
    pending, ready, log := pending0, ready0, log0 + [(r, id)];
    VisitingLogged(w, all, start, left, log0, r, id);
    if !w.alive(r, id) {
      Decide(w, all, left, pending, ready, r, id, false);
      ready, pending := ready[id := false], pending - {id};
    } else if w.serves(r, id) {
      Decide(w, all, left, pending, ready, r, id, true);
      ready, pending := ready[id := true], pending - {id};
    }
  }

  lemma VisitingBegins(w: World, all: set<nat>, pending: set<nat>, ready: map<nat, bool>, r: nat, log: Visits)
    requires Polled(w, all, pending, ready, r) && Complete(w, all, log, r)
    ensures Visiting(w, all, pending, pending, pending, ready, r, log)
  {
    RoundBegins(w, all, pending, ready, r);
    CompleteUpTo(w, all, log, r);
    assert pending - pending == {};
  }

  lemma VisitingEnds(w: World, all: set<nat>, start: set<nat>, ready0: map<nat, bool>, pending: set<nat>, ready: map<nat, bool>, r: nat, log: Visits)
    requires Polled(w, all, start, ready0, r) && Visiting(w, all, start, {}, pending, ready, r, log)
    ensures Polled(w, all, pending, ready, r + 1) && Complete(w, all, log, r + 1)
  {
    assert start - {} == start;
    RoundEnds(w, all, start, ready0, log, r, start);
  }

  /** One round over the servers pending at its start, in any order. */
  method Round(w: World, ghost all: set<nat>, pending0: set<nat>, ready0: map<nat, bool>, r: nat, ghost log0: Visits)
    returns (pending: set<nat>, ready: map<nat, bool>, ghost log: Visits)
    requires Polled(w, all, pending0, ready0, r) && Complete(w, all, log0, r)
    ensures Polled(w, all, pending, ready, r + 1) && Complete(w, all, log, r + 1)
  {
    pending, ready, log := pending0, ready0, log0;
    var left := pending0;
    VisitingBegins(w, all, pending, ready, r, log);
    while left != {}
      invariant Visiting(w, all, pending0, left, pending, ready, r, log)
      decreases |left|
    {
      var id :| id in left;
      pending, ready, log := Visit(w, id, pending, ready, r, all, pending0, left, log);
      left := left - {id};
    }
    VisitingEnds(w, all, pending0, ready0, pending, ready, r, log);
  }

  /**
   Poll until nothing is pending or the time, here a number of rounds, is up. Whoever is still
   pending then is unhealthy. The result follows the order of the handles.
   */
  method WaitReady(w: World, handles: seq<nat>, rounds: nat) returns (healthy: seq<bool>, ghost log: Visits)
    ensures |healthy| == |handles|
    ensures forall i :: 0 <= i < |handles| ==> (healthy[i] <==> Verdict(w, handles[i], rounds) == Some(true))
    ensures Complete(w, (set h | h in handles), log, rounds)
  {
    var all := set h | h in handles;
    var pending, ready: map<nat, bool>, r := all, map[], 0;
    log := [];
    while pending != {} && r < rounds
      invariant r <= rounds && Polled(w, all, pending, ready, r) && Complete(w, all, log, r)
    {
      pending, ready, log := Round(w, all, pending, ready, r, log);
      r := r + 1;
    }
    forall id | id in ready ensures Verdict(w, id, rounds) == Some(ready[id]) {
      VerdictStays(w, id, r, rounds);
    }
    if pending == {} {
      NothingDue(w, all, log, r, rounds);
    }
    var verdicts := ready + map id | id in pending :: false;
    healthy := seq(|handles|, i requires 0 <= i < |handles| => handles[i] in verdicts && verdicts[handles[i]]);
    assert pending != {} ==> r == rounds;
  }
}
