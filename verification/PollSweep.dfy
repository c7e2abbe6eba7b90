/**
 The poll server: one vector of descriptors, swept by index after each poll while the sweep itself appends the
 accepted descriptor and erases the closed ones. What accept and recv return, and which descriptors are ready,
 are inputs.
 */
module PollSweep {
  import opened Sequences

  datatype Entry = Entry(fd: int, ready: bool)

  datatype Action = Accept(result: int) | Echo(fd: int, bytes: int) | Drop(fd: int)

  /** One round: what accept returns, and recv for each descriptor. */
  datatype Results = Results(accepted: int, received: int -> int)

  function Act(e: Entry, listener: int, r: Results): Action {
    if e.fd == listener then Accept(r.accepted)
    else if r.received(e.fd) <= 0 then Drop(e.fd)
    else Echo(e.fd, r.received(e.fd))
  }

  predicate Dropped(e: Entry, listener: int, r: Results) { e.ready && Act(e, listener, r).Drop? }

  /** What a sweep does: each ready entry once, in order. */
  function Actions(es: seq<Entry>, listener: int, r: Results): seq<Action> {
    if es == [] then []
    else (if es[0].ready then [Act(es[0], listener, r)] else []) + Actions(es[1..], listener, r)
  }

  function Survivors(es: seq<Entry>, listener: int, r: Results): seq<Entry> {
    if es == [] then []
    else (if Dropped(es[0], listener, r) then [] else [es[0]]) + Survivors(es[1..], listener, r)
  }

  /** The accepted descriptor, to be polled from the next round on. */
  function Appended(es: seq<Entry>, r: Results): seq<Entry>
    requires es != []
  {
    if es[0].ready && r.accepted > 0 then [Entry(r.accepted, false)] else []
  }

  /** The listener comes first, and no descriptor is listed twice. */
  predicate Listening(es: seq<Entry>, listener: int) {
    && es != [] && es[0].fd == listener
    && forall i, j :: 0 <= i < j < |es| ==> es[i].fd != es[j].fd
  }

  /** Entries before k are dealt with, those from k on are untouched, and i is where the sweep stands. */
  ghost predicate Midway(entries: seq<Entry>, listener: int, r: Results, k: nat, fds: seq<Entry>, actions: seq<Action>, i: nat)
    requires entries != []
  {
    && k <= |entries|
    && var kept := Survivors(entries[..k], listener, r);
       var tail := if k == 0 then [] else Appended(entries, r);
       && fds == kept + entries[k..] + tail
       && actions == Actions(entries[..k], listener, r)
       && (if k < |entries| then i == |kept| else |kept| <= i <= |fds|)
  }

  lemma {:induction false} SurvivorsAppend(a: seq<Entry>, b: seq<Entry>, listener: int, r: Results)
    ensures Survivors(a + b, listener, r) == Survivors(a, listener, r) + Survivors(b, listener, r)
  {
    hide Dropped;
    if a == [] {
      assert a + b == b;
    } else {
      SurvivorsAppend(a[1..], b, listener, r);
      assert (a + b)[1..] == a[1..] + b;
    }
  }

  lemma {:induction false} ActionsAppend(a: seq<Entry>, b: seq<Entry>, listener: int, r: Results)
    ensures Actions(a + b, listener, r) == Actions(a, listener, r) + Actions(b, listener, r)
  {
    hide Act;
    if a == [] {
      assert a + b == b;
    } else {
      ActionsAppend(a[1..], b, listener, r);
      assert (a + b)[1..] == a[1..] + b;
    }
  }

  lemma OneMore(entries: seq<Entry>, k: nat, listener: int, r: Results)
    requires k < |entries|
    ensures var e := entries[k];
            && Survivors(entries[..k + 1], listener, r)
               == Survivors(entries[..k], listener, r) + (if Dropped(e, listener, r) then [] else [e])
            && Actions(entries[..k + 1], listener, r)
               == Actions(entries[..k], listener, r) + (if e.ready then [Act(e, listener, r)] else [])
            && entries[k..] == [e] + entries[k + 1..]
  {
    var e := entries[k];
    assert entries[..k + 1] == entries[..k] + [e];
    SurvivorsAppend(entries[..k], [e], listener, r);
    ActionsAppend(entries[..k], [e], listener, r);
    assert [e][1..] == [];
  }

  lemma ActionsCons(e: Entry, rest: seq<Entry>, listener: int, r: Results)
    ensures Actions([e] + rest, listener, r) == (if e.ready then [Act(e, listener, r)] else []) + Actions(rest, listener, r)
    ensures Survivors([e] + rest, listener, r) == (if Dropped(e, listener, r) then [] else [e]) + Survivors(rest, listener, r)
  {
    assert ([e] + rest)[1..] == rest;
  }

  /** The listener survives, so the index is past 0 by the time an entry can be erased. */
  lemma ListenerStays(entries: seq<Entry>, k: nat, listener: int, r: Results)
    requires Listening(entries, listener) && 0 < k <= |entries|
    ensures Survivors(entries[..k], listener, r) != [] && Survivors(entries[..k], listener, r)[0] == entries[0]
  {
    assert entries[..k][0] == entries[0];
  }

  lemma VisitDropped(entries: seq<Entry>, listener: int, r: Results, k: nat, fds: seq<Entry>, actions: seq<Action>, i: nat)
    requires Listening(entries, listener) && k < |entries| && Midway(entries, listener, r, k, fds, actions, i)
    requires Dropped(entries[k], listener, r)
    ensures 0 < i < |fds| && fds[i] == entries[k]
    ensures Midway(entries, listener, r, k + 1, fds[..i] + fds[i + 1..], actions + [Drop(entries[k].fd)], i)
  {
    hide Survivors, Actions, Appended;
    OneMore(entries, k, listener, r);
    ListenerStays(entries, k, listener, r);
    var kept := Survivors(entries[..k], listener, r);
    var tail := Appended(entries, r);
    assert fds == kept + ([entries[k]] + entries[k + 1..]) + tail;
    assert fds[..i] + fds[i + 1..] == kept + entries[k + 1..] + tail;
  }

  lemma VisitKept(entries: seq<Entry>, listener: int, r: Results, k: nat, fds: seq<Entry>, actions: seq<Action>, i: nat)
    requires Listening(entries, listener) && k < |entries| && Midway(entries, listener, r, k, fds, actions, i)
    requires !Dropped(entries[k], listener, r)
    ensures var e := entries[k];
            && i < |fds| && fds[i] == e
            && Midway(entries, listener, r, k + 1, if k == 0 then fds + Appended(entries, r) else fds,
                      actions + if e.ready then [Act(e, listener, r)] else [], i + 1)
  {
    hide Survivors, Actions, Appended, Dropped;
    OneMore(entries, k, listener, r);
    var e, kept := entries[k], Survivors(entries[..k], listener, r);
    var tail := if k == 0 then [] else Appended(entries, r);
    assert fds == (kept + [e]) + entries[k + 1..] + tail;
  }

  lemma VisitNew(entries: seq<Entry>, listener: int, r: Results, fds: seq<Entry>, actions: seq<Action>, i: nat)
    requires Listening(entries, listener) && Midway(entries, listener, r, |entries|, fds, actions, i) && i < |fds|
    ensures !fds[i].ready && Midway(entries, listener, r, |entries|, fds, actions, i + 1)
  {
    var kept := Survivors(entries[..|entries|], listener, r);
    assert fds[i] == Appended(entries, r)[i - |kept|];
  }

  method Sweep(entries: seq<Entry>, listener: int, r: Results) returns (fds: seq<Entry>, actions: seq<Action>)
    requires Listening(entries, listener)
    ensures actions == Actions(entries, listener, r)
    ensures fds == Survivors(entries, listener, r) + Appended(entries, r)
  {
    fds, actions := entries, [];
    var i := 0;
    ghost var k := 0;
    assert entries[..|entries|] == entries;
    assert [] + entries[0..] + [] == entries;
    hide Midway, Survivors, Actions, Dropped;
    while i < |fds|
      invariant 0 <= i && k <= |entries| && Midway(entries, listener, r, k, fds, actions, i)
      decreases |entries| - k, |fds| - i
    {
      if k == |entries| {
        VisitNew(entries, listener, r, fds, actions, i);
      } else if Dropped(entries[k], listener, r) {
        VisitDropped(entries, listener, r, k, fds, actions, i);
      } else {
        VisitKept(entries, listener, r, k, fds, actions, i);
      }
      if fds[i].ready {
        if fds[i].fd == listener {
          actions := actions + [Accept(r.accepted)];
          if r.accepted > 0 {
            fds := fds + [Entry(r.accepted, false)];
          }
        } else {
          var bytes := r.received(fds[i].fd);
          if bytes <= 0 {
            actions := actions + [Drop(fds[i].fd)];
            fds := fds[..i] + fds[i + 1..];
            i := i - 1;
          } else {
            actions := actions + [Echo(fds[i].fd, bytes)];
          }
        }
      }
      i := i + 1;
      if k < |entries| {
        k := k + 1;
      }
    }
  }

  // ---------- What a sweep amounts to ----------

  function Subject(a: Action, listener: int): int { if a.Accept? then listener else a.fd }

  function Subjects(actions: seq<Action>, listener: int): seq<int> {
    if actions == [] then [] else [Subject(actions[0], listener)] + Subjects(actions[1..], listener)
  }

  predicate ReadyIn(es: seq<Entry>, fd: int) { exists e :: e in es && e.ready && e.fd == fd }

  /** Despite the erasures every entry is handled exactly once if it was ready on entry, and otherwise not at all. */
  lemma {:induction false} ReadyHandledOnce(es: seq<Entry>, listener: int, r: Results, fd: int)
    requires forall i, j :: 0 <= i < j < |es| ==> es[i].fd != es[j].fd
    ensures Count(Subjects(Actions(es, listener, r), listener), fd) == if ReadyIn(es, fd) then 1 else 0
  {
    if es != [] {
      var e, rest := es[0], es[1..];
      ReadyHandledOnce(rest, listener, r, fd);
      forall i | 0 <= i < |rest|
        ensures rest[i].fd != e.fd
      {
        assert rest[i] == es[i + 1];
      }
      assert es == [e] + rest;
      assert ReadyIn(es, fd) <==> (e.ready && e.fd == fd) || ReadyIn(rest, fd);
      ActionsCons(e, rest, listener, r);
      if e.ready {
        SubjectsCons(Act(e, listener, r), Actions(rest, listener, r), listener);
        CountAppend([e.fd], Subjects(Actions(rest, listener, r), listener), fd);
        assert [e.fd][1..] == [];
      } else {
        assert Actions(es, listener, r) == Actions(rest, listener, r);
      }
    }
  }

  lemma SubjectsCons(a: Action, rest: seq<Action>, listener: int)
    ensures Subjects([a] + rest, listener) == [Subject(a, listener)] + Subjects(rest, listener)
  {
    assert ([a] + rest)[1..] == rest;
  }

  /** The survivors are the entries not dropped, each in its place among them. */
  lemma {:induction false} SurvivorsKeepOrder(es: seq<Entry>, listener: int, r: Results) returns (at: seq<nat>)
    ensures |at| == |Survivors(es, listener, r)|
    ensures forall i :: 0 <= i < |at| ==> at[i] < |es| && Survivors(es, listener, r)[i] == es[at[i]]
    ensures forall i, j :: 0 <= i < j < |at| ==> at[i] < at[j]
    ensures forall k: nat :: k in at <==> k < |es| && !Dropped(es[k], listener, r)
    decreases |es|
  {
    hide Dropped;
    if es == [] { return []; }
    var n := |es| - 1;
    var e := es[n];
    at := SurvivorsKeepOrder(es[..n], listener, r);
    assert es == es[..n] + [e];
    SurvivorsAppend(es[..n], [e], listener, r);
    assert [e][1..] == [];
    if !Dropped(e, listener, r) { at := at + [n]; }
  }

  lemma {:induction false} SurvivorsAre(es: seq<Entry>, listener: int, r: Results, e: Entry)
    ensures e in Survivors(es, listener, r) <==> e in es && !Dropped(e, listener, r)
  {
    hide Dropped;
    if es != [] {
      assert es == [es[0]] + es[1..];
      ActionsCons(es[0], es[1..], listener, r);
      SurvivorsAre(es[1..], listener, r, e);
    }
  }

  lemma {:induction false} ActionsAre(es: seq<Entry>, listener: int, r: Results, a: Action)
    ensures a in Actions(es, listener, r) <==> exists e :: e in es && e.ready && a == Act(e, listener, r)
  {
    hide Act;
    if es != [] {
      assert es == [es[0]] + es[1..];
      ActionsCons(es[0], es[1..], listener, r);
      ActionsAre(es[1..], listener, r, a);
    }
  }

  /**
   What a sweep leaves: of the entries, all but the clients that were ready and whose recv returned no bytes or an
   error; and the descriptor that a ready listener accepted, if it is positive.
   */
  lemma EntriesAfterASweep(es: seq<Entry>, listener: int, r: Results, e: Entry)
    requires Listening(es, listener)
    ensures e in Swept(es, listener, r) <==>
            || (e in es && (!e.ready || e.fd == listener || r.received(e.fd) > 0))
            || (ReadyIn(es, listener) && r.accepted > 0 && e == Entry(r.accepted, false))
  {
    SurvivorsAre(es, listener, r, e);
    ListenerIsFirst(es, listener);
  }

  lemma ListenerIsFirst(es: seq<Entry>, listener: int)
    requires Listening(es, listener)
    ensures ReadyIn(es, listener) <==> es[0].ready
    ensures forall e :: e in es && e.fd == listener ==> e == es[0]
  {
    forall e | e in es && e.fd == listener
      ensures e == es[0]
    {
      var i :| 0 <= i < |es| && es[i] == e;
    }
    assert es[0] in es;
  }

  /** What a sweep does for a client: it closes one that sent nothing, and echoes what another sent. */
  lemma ClientsInASweep(es: seq<Entry>, listener: int, r: Results, fd: int, n: int)
    requires Listening(es, listener) && fd != listener
    ensures Drop(fd) in Actions(es, listener, r) <==> ReadyIn(es, fd) && r.received(fd) <= 0
    ensures Echo(fd, n) in Actions(es, listener, r) <==> ReadyIn(es, fd) && n == r.received(fd) && n > 0
  {
    ActionsAre(es, listener, r, Drop(fd));
    ActionsAre(es, listener, r, Echo(fd, n));
  }

  /** What it does for the listener: it accepts, if the listener is ready. */
  lemma ListenerInASweep(es: seq<Entry>, listener: int, r: Results, x: int)
    requires Listening(es, listener)
    ensures Accept(x) in Actions(es, listener, r) <==> ReadyIn(es, listener) && x == r.accepted
    ensures Drop(listener) !in Actions(es, listener, r)
  {
    ActionsAre(es, listener, r, Accept(x));
    ActionsAre(es, listener, r, Drop(listener));
    ListenerIsFirst(es, listener);
  }

  // ---------- Round after round ----------

  function Fds(es: seq<Entry>): set<int> { set e | e in es :: e.fd }

  datatype Round = Round(ready: set<int>, results: Results)

  /** poll marks the ready descriptors. */
  function Polled(es: seq<Entry>, ready: set<int>): (polled: seq<Entry>)
    ensures |polled| == |es| && forall i :: 0 <= i < |es| ==> polled[i] == Entry(es[i].fd, es[i].fd in ready)
  {
    seq(|es|, i requires 0 <= i < |es| => Entry(es[i].fd, es[i].fd in ready))
  }

  function Swept(es: seq<Entry>, listener: int, r: Results): seq<Entry>
    requires es != []
  {
    Survivors(es, listener, r) + Appended(es, r)
  }

  /** The sockets open after these actions: an accepted one opens, a dropped one is closed. */
  function Opened(open: set<int>, actions: seq<Action>): set<int>
    decreases |actions|
  {
    if actions == [] then open
    else
      var a := actions[0];
      Opened(if a.Accept? && a.result > 0 then open + {a.result} else if a.Drop? then open - {a.fd} else open, actions[1..])
  }

  /** The descriptors a sweep closes. */
  function Closed(es: seq<Entry>, listener: int, r: Results): set<int> {
    set e | e in es && Dropped(e, listener, r) :: e.fd
  }

  lemma ClosedCons(e: Entry, rest: seq<Entry>, listener: int, r: Results)
    ensures Closed([e] + rest, listener, r) == (if Dropped(e, listener, r) then {e.fd} else {}) + Closed(rest, listener, r)
  {
    hide Dropped;
    assert forall x :: x in [e] + rest <==> x == e || x in rest;
  }

  lemma OpenedCons(open: set<int>, a: Action, rest: seq<Action>)
    ensures Opened(open, [a] + rest)
            == Opened(if a.Accept? && a.result > 0 then open + {a.result} else if a.Drop? then open - {a.fd} else open, rest)
  {
    assert ([a] + rest)[1..] == rest;
  }

  lemma {:induction false} ClientsOnlyClose(es: seq<Entry>, listener: int, r: Results, open: set<int>)
    requires forall e :: e in es ==> e.fd != listener
    ensures Opened(open, Actions(es, listener, r)) == open - Closed(es, listener, r)
  {
    if es != [] {
      var e, rest := es[0], es[1..];
      assert es == [e] + rest;
      var closed := if Dropped(e, listener, r) then open - {e.fd} else open;
      ClientsOnlyClose(rest, listener, r, closed);
      ClosedCons(e, rest, listener, r);
      ActionsCons(e, rest, listener, r);
      OpenedCons(open, Act(e, listener, r), Actions(rest, listener, r));
      hide Actions, Closed, Opened;
      assert !e.ready ==> Actions(es, listener, r) == Actions(rest, listener, r);
      assert open - Closed(es, listener, r) == closed - Closed(rest, listener, r);
    } else {
      assert Closed(es, listener, r) == {};
    }
  }

  /** accept hands out a descriptor that is not open. */
  predicate Fresh(es: seq<Entry>, r: Results) { forall e :: e in es ==> e.fd != r.accepted }

  lemma SweepKeepsListening(es: seq<Entry>, listener: int, r: Results)
    requires Listening(es, listener) && Fresh(es, r)
    ensures Listening(Swept(es, listener, r), listener)
  {
    var at := SurvivorsKeepOrder(es, listener, r);
    var kept := Survivors(es, listener, r);
    ListenerStays(es, |es|, listener, r);
    assert es[..|es|] == es;
    var fds := Swept(es, listener, r);
    hide Survivors;
    forall i, j | 0 <= i < j < |fds|
      ensures fds[i].fd != fds[j].fd
    {
      assert fds[i] == kept[i] && kept[i] == es[at[i]] && es[at[i]] in es;
      if j < |kept| { assert fds[j] == es[at[j]]; }
    }
  }

  lemma {:induction false} SurvivingFds(es: seq<Entry>, listener: int, r: Results)
    requires forall i, j :: 0 <= i < j < |es| ==> es[i].fd != es[j].fd
    ensures Fds(Survivors(es, listener, r)) == Fds(es) - Closed(es, listener, r)
  {
    if es != [] {
      var e, rest := es[0], es[1..];
      assert es == [e] + rest;
      SurvivingFds(rest, listener, r);
      ClosedCons(e, rest, listener, r);
      ActionsCons(e, rest, listener, r);
      assert e.fd !in Fds(rest) by {
        forall x | x in rest
          ensures x.fd != e.fd
        {
          var i :| 0 <= i < |rest| && rest[i] == x;
          assert es[i + 1] == x;
        }
      }
      assert Closed(rest, listener, r) <= Fds(rest);
      hide Dropped, Survivors, Closed;
      assert Fds([e] + Survivors(rest, listener, r)) == {e.fd} + Fds(Survivors(rest, listener, r));
      assert Fds(es) == {e.fd} + Fds(rest);
    }
  }

  /** After a sweep the vector lists exactly the sockets still open. */
  lemma SweepKeepsOpen(es: seq<Entry>, listener: int, r: Results)
    requires Listening(es, listener) && Fresh(es, r)
    ensures Fds(Swept(es, listener, r)) == Opened(Fds(es), Actions(es, listener, r))
  {
    var e, rest := es[0], es[1..];
    assert es == [e] + rest;
    forall i | 0 <= i < |rest|
      ensures rest[i].fd != listener
    {
      assert rest[i] == es[i + 1];
    }
    var added := if e.ready && r.accepted > 0 then {r.accepted} else {};
    var open := if e.ready && r.accepted > 0 then Fds(es) + {r.accepted} else Fds(es);
    ClientsOnlyClose(rest, listener, r, open);
    ActionsCons(e, rest, listener, r);
    OpenedCons(Fds(es), Act(e, listener, r), Actions(rest, listener, r));
    ClosedCons(e, rest, listener, r);
    SurvivingFds(es, listener, r);
    assert r.accepted !in Closed(rest, listener, r);
    assert Fds(Swept(es, listener, r)) == Fds(Survivors(es, listener, r)) + added by { hide Survivors; }
    hide Actions, Survivors, Closed, Opened, Swept, Fds;
    assert !e.ready ==> Actions(es, listener, r) == Actions(rest, listener, r);
    assert open - Closed(es, listener, r) == Fds(es) - Closed(es, listener, r) + added;
    assert Closed(es, listener, r) == Closed(rest, listener, r);
  }

  lemma PollKeepsListening(es: seq<Entry>, listener: int, round: Round)
    requires Listening(es, listener)
    ensures Listening(Polled(es, round.ready), listener) && Fds(Polled(es, round.ready)) == Fds(es)
    ensures Fresh(es, round.results) <==> Fresh(Polled(es, round.ready), round.results)
  {
    var polled := Polled(es, round.ready);
    forall fd
      ensures fd in Fds(polled) <==> fd in Fds(es)
    {
      if fd in Fds(es) {
        var i :| 0 <= i < |es| && es[i].fd == fd;
        assert polled[i] in polled;
      }
    }
    assert Fresh(es, round.results) <==> round.results.accepted !in Fds(es);
    assert Fresh(polled, round.results) <==> round.results.accepted !in Fds(polled);
  }

  /** The server's loop: rounds of polling and sweeping, and the sockets open after them. */
  ghost predicate Serves(es: seq<Entry>, open: set<int>, listener: int, rounds: seq<Round>, es': seq<Entry>, open': set<int>)
    requires Listening(es, listener)
    decreases |rounds|
  {
    if rounds == [] then es' == es && open' == open
    else
      var r := rounds[0].results;
      var polled := Polled(es, rounds[0].ready);
      && Fresh(es, r)
      && (PollKeepsListening(es, listener, rounds[0]);
          SweepKeepsListening(polled, listener, r);
          Serves(Swept(polled, listener, r), Opened(open, Actions(polled, listener, r)), listener, rounds[1..], es', open'))
  }

  /** However many rounds: the listener stays first, no descriptor is listed twice, and the list is what is open. */
  lemma {:induction false} ListedIsOpen(es: seq<Entry>, listener: int, rounds: seq<Round>, es': seq<Entry>, open': set<int>)
    requires Listening(es, listener) && Serves(es, Fds(es), listener, rounds, es', open')
    ensures Listening(es', listener) && Fds(es') == open'
    decreases |rounds|
  {
    if rounds != [] {
      var r := rounds[0].results;
      var polled := Polled(es, rounds[0].ready);
      PollKeepsListening(es, listener, rounds[0]);
      SweepKeepsListening(polled, listener, r);
      SweepKeepsOpen(polled, listener, r);
      ListedIsOpen(Swept(polled, listener, r), listener, rounds[1..], es', open');
    }
  }

  /** So it is from the server's start, with the listener alone in the vector. */
  lemma ListedFromTheStart(listener: int, rounds: seq<Round>, es: seq<Entry>, open: set<int>)
    requires Serves([Entry(listener, false)], {listener}, listener, rounds, es, open)
    ensures es != [] && es[0].fd == listener && Fds(es) == open
    ensures forall i, j :: 0 <= i < j < |es| ==> es[i].fd != es[j].fd
  {
    assert Fds([Entry(listener, false)]) == {listener};
    ListedIsOpen([Entry(listener, false)], listener, rounds, es, open);
  }
}
