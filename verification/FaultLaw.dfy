/**
 How often a key is notified over a whole run with any faults: the store row and
 the notifications of one key, folded over what each tick sees of it.
 */
module FaultLaw {
  import opened Model
  import opened DedupStore
  import opened WithProduct
  import opened Tick
  import opened Watchers
  import opened KeyTrace
  import opened Reconcile
  import opened RunLaw

  /**
   One key meets the service: an offer with it is handled, or a tick misses it,
   and then its row is removed unless loading the keys or its own delete fails.
   */
  datatype Step = Met(price: Option<real>, faults: Faults) | Missed(removed: bool)

  function StepsIn(current: seq<Offer>, r: Round, k: Key, i: nat): seq<Step>
    decreases |current| - i
  {
    if i >= |current| then []
    else (if current[i].key == k then [Met(current[i].price, FaultAt(r, i))] else []) + StepsIn(current, r, k, i + 1)
  }

  /** A tick may see a key several times, or miss it. */
  function TickSteps(prefixes: seq<string>, p: Product, r: Round, k: Key): seq<Step> {
    var current := Current(prefixes, p, r);
    if k in KeySet(current) then StepsIn(current, r, k, 0) else [Missed(r.keysOk && k !in r.deleteFails)]
  }

  function RunSteps(prefixes: seq<string>, p: Product, rounds: seq<Round>, k: Key): seq<Step> {
    if rounds == [] then []
    else
      var n := |rounds| - 1;
      RunSteps(prefixes, p, rounds[..n], k) + TickSteps(prefixes, p, rounds[n], k)
  }

  /** What one step makes of the key's row. */
  function RowAfterStep(st: Stored, x: Step): Stored {
    match x
    case Missed(removed) => if removed then None else st
    case Met(price, f) =>
      if !f.lookupOk then st
      else if st.None? then if f.notifyOk && f.writeOk then Some(price) else None
      else if IsDrop(st.value, price) && !f.notifyOk then st
      else if f.writeOk then Some(price) else st
  }

  /** And whether it delivers a notification. */
  predicate Told(st: Stored, x: Step) {
    x.Met? && x.faults.lookupOk && x.faults.notifyOk && (st.None? || IsDrop(st.value, x.price))
  }

  function RowFold(st: Stored, steps: seq<Step>): Stored {
    if steps == [] then st else RowAfterStep(RowFold(st, steps[..|steps| - 1]), steps[|steps| - 1])
  }

  function CountTold(st: Stored, steps: seq<Step>): nat {
    if steps == [] then 0
    else
      var n := |steps| - 1;
      CountTold(st, steps[..n]) + if Told(RowFold(st, steps[..n]), steps[n]) then 1 else 0
  }

  lemma FoldSnoc(st: Stored, steps: seq<Step>, x: Step)
    ensures RowFold(st, steps + [x]) == RowAfterStep(RowFold(st, steps), x)
    ensures CountTold(st, steps + [x]) == CountTold(st, steps) + if Told(RowFold(st, steps), x) then 1 else 0
  {
    assert (steps + [x])[..|steps|] == steps;
  }

  lemma {:induction false} FoldConcat(st: Stored, a: seq<Step>, b: seq<Step>)
    ensures RowFold(st, a + b) == RowFold(RowFold(st, a), b)
    ensures CountTold(st, a + b) == CountTold(st, a) + CountTold(RowFold(st, a), b)
  {
    if b == [] {
      assert a + b == a;
    } else {
      var n := |b| - 1;
      FoldConcat(st, a, b[..n]);
      FoldSnoc(st, a + b[..n], b[n]);
      assert a + b == (a + b[..n]) + [b[n]];
    }
  }

  /** A word of steps is where it leads to, and how often it tells. */
  ghost predicate Folds(st: Stored, steps: seq<Step>, end: Stored, told: int) {
    RowFold(st, steps) == end && CountTold(st, steps) == told
  }

  lemma FoldOne(st: Stored, x: Step)
    ensures Folds(st, [x], RowAfterStep(st, x), if Told(st, x) then 1 else 0)
  {
    FoldSnoc(st, [], x);
    assert [] + [x] == [x];
  }

  lemma FoldOn(st: Stored, a: seq<Step>, mid: Stored, m: int, b: seq<Step>, end: Stored, n: int)
    requires Folds(st, a, mid, m) && Folds(mid, b, end, n)
    ensures Folds(st, a + b, end, m + n)
  {
    FoldConcat(st, a, b);
  }

  lemma HandleFolds(rows: Table, a: Offer, f: Faults)
    ensures var h := Handle(rows, a, f);
            Folds(StoredAt(rows, a.key), [Met(a.price, f)], StoredAt(h.rows, a.key), Notices(a.key, h.events))
  {
    var h := Handle(rows, a, f);
    var x := Met(a.price, f);
    FoldOne(StoredAt(rows, a.key), x);
    if Told(StoredAt(rows, a.key), x) {
      NoticesOne(a.key, h.events, 1);
    } else {
      NoticesNone(a.key, h.events);
    }
  }

  /** An offer with another key. */
  lemma HandleSkips(rows: Table, a: Offer, f: Faults, k: Key)
    requires a.key != k
    ensures var h := Handle(rows, a, f);
            Folds(StoredAt(rows, k), [], StoredAt(h.rows, k), Notices(k, h.events))
  {
    NoticesNone(k, Handle(rows, a, f).events);
  }

  lemma {:induction false} ProcessFolds(rows: Table, current: seq<Offer>, r: Round, i: nat, k: Key)
    ensures var done := Process(rows, current, r, i);
            Folds(StoredAt(rows, k), StepsIn(current, r, k, i), StoredAt(done.rows, k), Notices(k, done.events))
    decreases |current| - i
  {
    if i >= |current| {
    } else {
      var a, f := current[i], FaultAt(r, i);
      var h := Handle(rows, a, f);
      var rest := Process(h.rows, current, r, i + 1);
      if a.key == k {
        HandleFolds(rows, a, f);
      } else {
        HandleSkips(rows, a, f, k);
      }
      ProcessFolds(h.rows, current, r, i + 1, k);
      NoticesConcat(k, h.events, rest.events);
      FoldOn(StoredAt(rows, k), if a.key == k then [Met(a.price, f)] else [], StoredAt(h.rows, k), Notices(k, h.events),
             StepsIn(current, r, k, i + 1), StoredAt(rest.rows, k), Notices(k, rest.events));
    }
  }

  /** The key's row, if any, is this product's. */
  predicate Mine(p: Product, rows: Table, k: Key) {
    k in rows ==> rows[k].product == p.name
  }

  lemma SweptRow(p: Product, rows: Table, current: seq<Offer>, r: Round, k: Key)
    requires Mine(p, rows, k)
    ensures StoredAt(Swept(p, rows, current, r).rows, k) ==
            if k !in KeySet(current) && r.keysOk && k !in r.deleteFails then None else StoredAt(rows, k)
    ensures Mine(p, Swept(p, rows, current, r).rows, k)
  {
    SweptExact(p, rows, current, r);
  }

  lemma {:induction false} MissedInProcess(current: seq<Offer>, r: Round, k: Key, i: nat)
    requires k !in KeySet(current)
    ensures StepsIn(current, r, k, i) == []
    decreases |current| - i
  {
    if i >= |current| {
    } else {
      MissedInProcess(current, r, k, i + 1);
    }
  }

  lemma TickFolds(prefixes: seq<string>, p: Product, rows: Table, r: Round, k: Key)
    requires Mine(p, rows, k)
    ensures var t := TickOutcome(prefixes, p, rows, r);
            Folds(StoredAt(rows, k), TickSteps(prefixes, p, r, k), StoredAt(t.rows, k), Notices(k, t.events))
  {
    var current := Current(prefixes, p, r);
    var swept := Swept(p, rows, current, r);
    var done := Process(swept.rows, current, r, 0);
    SweptRow(p, rows, current, r, k);
    SilentBefore(p, rows, current, r, k);
    NoticesConcat(k, PollEvents(r.polls, 0) + swept.events, done.events);
    ProcessFolds(swept.rows, current, r, 0, k);
    if k !in KeySet(current) {
      MissedInProcess(current, r, k, 0);
      FoldOne(StoredAt(rows, k), Missed(r.keysOk && k !in r.deleteFails));
    }
  }

  lemma {:induction false} ProcessStaysMine(p: Product, rows: Table, current: seq<Offer>, r: Round, i: nat, k: Key)
    requires Mine(p, rows, k) && forall a :: a in current ==> a.productName == p.name
    ensures Mine(p, Process(rows, current, r, i).rows, k)
    decreases |current| - i
  {
    if i >= |current| {
    } else {
      assert current[i] in current;
      HandleExact(rows, current[i], FaultAt(r, i));
      ProcessStaysMine(p, Handle(rows, current[i], FaultAt(r, i)).rows, current, r, i + 1, k);
    }
  }

  lemma TickStaysMine(prefixes: seq<string>, p: Product, rows: Table, r: Round, k: Key)
    requires Mine(p, rows, k)
    ensures Mine(p, TickOutcome(prefixes, p, rows, r).rows, k)
  {
    var current := Current(prefixes, p, r);
    SweptRow(p, rows, current, r, k);
    GatheredNamed(prefixes, p, r);
    ProcessStaysMine(p, Swept(p, rows, current, r).rows, current, r, 0, k);
  }

  /**
   The notification law with faults: from any table on which the key's row is the
   product's own, over any ticks with any failing polls, loads, deletes, lookups,
   notifications and writes, the key's row and the exact number of its delivered
   notifications are those of folding what the ticks saw of it.
   */
  lemma {:induction false} FaultyRunLaw(prefixes: seq<string>, p: Product, rows: Table, rounds: seq<Round>, k: Key)
    requires Mine(p, rows, k)
    ensures var t := RunRounds(prefixes, p, rows, rounds);
            && Mine(p, t.rows, k)
            && StoredAt(t.rows, k) == RowFold(StoredAt(rows, k), RunSteps(prefixes, p, rounds, k))
            && Notices(k, t.events) == CountTold(StoredAt(rows, k), RunSteps(prefixes, p, rounds, k))
  {
    if rounds == [] {
    } else {
      var n := |rounds| - 1;
      FaultyRunLaw(prefixes, p, rows, rounds[..n], k);
      var mid := RunRounds(prefixes, p, rows, rounds[..n]);
      var last := TickOutcome(prefixes, p, mid.rows, rounds[n]);
      TickFolds(prefixes, p, mid.rows, rounds[n], k);
      TickStaysMine(prefixes, p, mid.rows, rounds[n], k);
      NoticesConcat(k, mid.events, last.events);
      FoldOn(StoredAt(rows, k), RunSteps(prefixes, p, rounds[..n], k), StoredAt(mid.rows, k), Notices(k, mid.events),
             TickSteps(prefixes, p, rounds[n], k), StoredAt(last.rows, k), Notices(k, last.events));
    }
  }

  /** The same for every product over every stretch of every interleaving. */
  lemma InterleavedFaultyRunLaw(c: Config, owner: Owner, s: System, acts: seq<Action>, k: Key)
    requires Stretch(c, owner, s, acts, owner(k))
    ensures var n := Run(c, s, acts);
            var steps := RunSteps(c.prefixes, c.products[owner(k)], TicksOf(c, owner, s, acts, owner(k)), k);
            && StoredAt(n.rows, k) == RowFold(StoredAt(s.rows, k), steps)
            && CountDelivered(KeyLog(k, n.log)) ==
               CountDelivered(KeyLog(k, s.log)) + CountTold(StoredAt(s.rows, k), steps)
  {
    var w, n := owner(k), Run(c, s, acts);
    var rows, rounds := Share(owner, w, s.rows), TicksOf(c, owner, s, acts, w);
    InterleavedTicks(c, owner, s, acts, w);
    NonInterference(c, owner, s, acts, w);
    FaultyRunLaw(c.prefixes, c.products[w], rows, rounds, k);
    DeliveriesAreNotices(owner, s.log, k);
    DeliveriesAreNotices(owner, n.log, k);
    NoticesConcat(k, LogOf(w, s.log), RunRounds(c.prefixes, c.products[w], rows, rounds).events);
    assert StoredAt(rows, k) == StoredAt(s.rows, k) && StoredAt(Share(owner, w, n.rows), k) == StoredAt(n.rows, k);
  }
}
