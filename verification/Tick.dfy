/**
 What one tick of one product does to the store, and the events it leaves
 behind, as a function of everything the outside world decides.
 */
module Tick {
  import opened Model
  import opened DedupStore
  import opened WithProduct

  /** One source poll; None is a failed check. */
  datatype Poll = Poll(source: string, at: int, result: Option<seq<Offer>>)

  /** What the store and the notifier answer while one offer is handled. */
  datatype Faults = Faults(lookupOk: bool, notifyOk: bool, writeOk: bool)

  /**
   Everything outside decides in one tick: the polls, whether the stored keys
   load and in which order, whose deletes fail, and the faults of the i-th offer.
   */
  datatype Round = Round(
    polls: seq<Poll>,
    keysOk: bool,
    order: seq<Key>,
    deleteFails: set<Key>,
    faults: seq<Faults>)

  datatype Event =
    | Polled(source: string, at: int, good: bool, available: nat, stock: int, minPrice: Option<real>)
    | Dropped(key: Key, ok: bool)
    | LookedUp(offer: Offer, ok: bool)
    | Sent(offer: Offer, ok: bool)
    | Refreshed(offer: Offer, ok: bool)
    | Inserted(offer: Offer, ok: bool)
    | Counted(source: string)
    | Crashed

  /** The keys an event is about. */
  function Mentions(e: Event): set<Key> {
    match e
    case Dropped(k, _) => {k}
    case LookedUp(a, _) => {a.key}
    case Sent(a, _) => {a.key}
    case Refreshed(a, _) => {a.key}
    case Inserted(a, _) => {a.key}
    case _ => {}
  }

  datatype Outcome = Outcome(rows: Table, events: seq<Event>)

  // ----- filters

  predicate IsLocal(prefixes: seq<string>, a: Offer) {
    || a.targeted
    || a.channel != InStore
    || prefixes == []
    || exists i :: 0 <= i < |prefixes| && prefixes[i] <= a.plz
  }

  predicate WithinBudget(a: Offer) {
    a.priceMax <= 0 || a.price.None? || a.price.value <= a.priceMax as real
  }

  /** The offers from index i on that pass both filters, in order. */
  function Admitted(prefixes: seq<string>, offers: seq<Offer>, i: nat): seq<Offer>
    decreases |offers| - i
  {
    if i >= |offers| then []
    else
      (if WithinBudget(offers[i]) && IsLocal(prefixes, offers[i]) then [offers[i]] else [])
      + Admitted(prefixes, offers, i + 1)
  }

  /** What one poll contributes: nothing when the check failed. */
  function Contribution(prefixes: seq<string>, p: Product, poll: Poll): seq<Offer> {
    if poll.result.None? then [] else Admitted(prefixes, Stamp(p, poll.result.value), 0)
  }

  /** The tick's `current` list, from poll j on. */
  function Gathered(prefixes: seq<string>, p: Product, polls: seq<Poll>, j: nat): seq<Offer>
    decreases |polls| - j
  {
    if j >= |polls| then []
    else Contribution(prefixes, p, polls[j]) + Gathered(prefixes, p, polls, j + 1)
  }

  function Current(prefixes: seq<string>, p: Product, r: Round): seq<Offer> {
    Gathered(prefixes, p, r.polls, 0)
  }

  // ----- poll statistics

  function StockFrom(avail: seq<Offer>, i: nat): int
    decreases |avail| - i
  {
    if i >= |avail| then 0 else avail[i].stock + StockFrom(avail, i + 1)
  }

  ghost predicate IsMinPrice(avail: seq<Offer>, m: Option<real>) {
    match m
    case None => forall i :: 0 <= i < |avail| ==> avail[i].price.None?
    case Some(v) =>
      && (exists i :: 0 <= i < |avail| && avail[i].price == Some(v))
      && (forall i :: 0 <= i < |avail| && avail[i].price.Some? ==> v <= avail[i].price.value)
  }

  function MinPrice(avail: seq<Offer>): (m: Option<real>)
    ensures IsMinPrice(avail, m)
  {
    if avail == [] then None
    else
      var n := |avail| - 1;
      var rest := MinPrice(avail[..n]);
      assert forall i | 0 <= i < n :: avail[..n][i] == avail[i];
      if avail[n].price.Some? && (rest.None? || avail[n].price.value < rest.value)
      then avail[n].price else rest
  }

  function PollEvent(poll: Poll): Event {
    match poll.result
    case None => Polled(poll.source, poll.at, false, 0, 0, None)
    case Some(avail) => Polled(poll.source, poll.at, true, |avail|, StockFrom(avail, 0), MinPrice(avail))
  }

  function PollEvents(polls: seq<Poll>, j: nat): seq<Event>
    decreases |polls| - j
  {
    if j >= |polls| then [] else [PollEvent(polls[j])] + PollEvents(polls, j + 1)
  }

  // ----- dropping stale rows

  /** Walks the loaded keys, deleting those no longer offered. */
  function Sweep(rows: Table, keep: set<Key>, fails: set<Key>, todo: seq<Key>): Outcome {
    if todo == [] then Outcome(rows, [])
    else if todo[0] in keep then Sweep(rows, keep, fails, todo[1..])
    else
      var ok := todo[0] !in fails;
      var rest := Sweep(if ok then Deleted(rows, todo[0]) else rows, keep, fails, todo[1..]);
      Outcome(rest.rows, [Dropped(todo[0], ok)] + rest.events)
  }

  // ----- handling one offer

  /** Re-notify only when both prices are known and the new one is lower. */
  predicate IsDrop(stored: Option<real>, offered: Option<real>) {
    stored.Some? && offered.Some? && offered.value < stored.value
  }

  function FaultAt(r: Round, i: nat): Faults {
    if i < |r.faults| then r.faults[i] else Faults(true, true, true)
  }

  function HandleKnown(rows: Table, a: Offer, f: Faults): Outcome
    requires a.key in rows
  {
    var touched := if f.writeOk then Touched(rows, a) else rows;
    if IsDrop(rows[a.key].price, a.price) then
      if f.notifyOk
      then Outcome(touched, [Sent(a, true), Counted(a.source), Refreshed(a, f.writeOk)])
      else Outcome(rows, [Sent(a, false)])
    else Outcome(touched, [Refreshed(a, f.writeOk)])
  }

  function HandleNew(rows: Table, a: Offer, f: Faults): Outcome
    requires a.key !in rows
  {
    if f.notifyOk
    then Outcome(if f.writeOk then Recorded(rows, a) else rows,
                 [Sent(a, true), Inserted(a, f.writeOk), Counted(a.source)])
    else Outcome(rows, [Sent(a, false)])
  }

  function Handle(rows: Table, a: Offer, f: Faults): Outcome {
    if !f.lookupOk then Outcome(rows, [LookedUp(a, false)])
    else
      var rest := if a.key in rows then HandleKnown(rows, a, f) else HandleNew(rows, a, f);
      Outcome(rest.rows, [LookedUp(a, true)] + rest.events)
  }

  /** Handles the offers from index i on, in order. */
  function Process(rows: Table, current: seq<Offer>, r: Round, i: nat): Outcome
    decreases |current| - i
  {
    if i >= |current| then Outcome(rows, [])
    else
      var h := Handle(rows, current[i], FaultAt(r, i));
      var rest := Process(h.rows, current, r, i + 1);
      Outcome(rest.rows, h.events + rest.events)
  }

  // ----- the whole tick

  ghost function Swept(p: Product, rows: Table, current: seq<Offer>, r: Round): Outcome {
    if r.keysOk
    then Sweep(rows, KeySet(current), r.deleteFails, Arrange(r.order, KeysOf(rows, p.name)))
    else Outcome(rows, [])
  }

  ghost function TickOutcome(prefixes: seq<string>, p: Product, rows: Table, r: Round): Outcome {
    var current := Current(prefixes, p, r);
    var swept := Swept(p, rows, current, r);
    var done := Process(swept.rows, current, r, 0);
    Outcome(done.rows, PollEvents(r.polls, 0) + swept.events + done.events)
  }

  /** Ticks of one product, one after the other. */
  ghost function RunRounds(prefixes: seq<string>, p: Product, rows: Table, rounds: seq<Round>): Outcome {
    if rounds == [] then Outcome(rows, [])
    else
      var n := |rounds| - 1;
      var before := RunRounds(prefixes, p, rows, rounds[..n]);
      var last := TickOutcome(prefixes, p, before.rows, rounds[n]);
      Outcome(last.rows, before.events + last.events)
  }
}
