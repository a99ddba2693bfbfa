/**
 The life of one key. In every run its events spell a word of a small
 protocol; the laws about notifications follow from the protocol alone.
 */
module KeyTrace {
  import opened Model
  import opened DedupStore
  import opened WithProduct
  import opened Tick
  import opened Steps
  import opened Watchers

  predicate Relevant(k: Key, e: Event) { k in Mentions(e) || e.Crashed? }

  /** The events about k, and the crashes, in order. */
  function KeyEvents(k: Key, events: seq<Event>): seq<Event> {
    if events == [] then []
    else
      var n := |events| - 1;
      KeyEvents(k, events[..n]) + (if Relevant(k, events[n]) then [events[n]] else [])
  }

  function KeyLog(k: Key, log: seq<Entry>): seq<Event> {
    if log == [] then []
    else
      var n := |log| - 1;
      KeyLog(k, log[..n]) + (if Relevant(k, log[n].event) then [log[n].event] else [])
  }

  /** What the table says about a key: no row, or a row with or without a price. */
  type Stored = Option<Option<real>>

  function StoredAt(rows: Table, k: Key): Stored {
    if k in rows then Some(rows[k].price) else None
  }

  // ----- the protocol of one key

  datatype Mode = Rest | MustSend(offer: Offer, known: bool) | MustWrite(offer: Offer, known: bool)

  datatype KeyState = KeyState(row: Stored, mode: Mode)

  /** One letter of the protocol; None when it is not allowed here. */
  function Read(st: KeyState, e: Event): Option<KeyState> {
    match e
    case Crashed => Some(KeyState(st.row, Rest))
    case Dropped(_, ok) =>
      if st.mode.Rest? then Some(KeyState(if ok then None else st.row, Rest)) else None
    case LookedUp(a, ok) =>
      if !st.mode.Rest? then None
      else if !ok then Some(st)
      else if st.row.None? then Some(st.(mode := MustSend(a, false)))
      else if IsDrop(st.row.value, a.price) then Some(st.(mode := MustSend(a, true)))
      else Some(st.(mode := MustWrite(a, true)))
    case Sent(a, ok) =>
      if !st.mode.MustSend? || st.mode.offer != a then None
      else Some(st.(mode := if ok then MustWrite(a, st.mode.known) else Rest))
    case Refreshed(a, ok) =>
      if st.mode != MustWrite(a, true) then None
      else Some(KeyState(if ok then Some(a.price) else st.row, Rest))
    case Inserted(a, ok) =>
      if st.mode != MustWrite(a, false) then None
      else Some(KeyState(if ok then Some(a.price) else st.row, Rest))
    case _ => None
  }

  function ReadAll(st: KeyState, es: seq<Event>): Option<KeyState> {
    if es == [] then Some(st)
    else
      var before := ReadAll(st, es[..|es| - 1]);
      if before.None? then None else Read(before.value, es[|es| - 1])
  }

  /** A word of the protocol that starts at rest with this row. */
  predicate Spells(row: Stored, es: seq<Event>) {
    ReadAll(KeyState(row, Rest), es).Some?
  }

  // ----- every run spells the protocol

  function ModeOf(pc: Pc, k: Key): Mode
    requires pc.Fits()
  {
    match pc
    case Sending(_, current, i, known) => if current[i].key == k then MustSend(current[i], known) else Rest
    case CountingDrop(_, current, i) => if current[i].key == k then MustWrite(current[i], true) else Rest
    case Touching(_, current, i) => if current[i].key == k then MustWrite(current[i], true) else Rest
    case Recording(_, current, i) => if current[i].key == k then MustWrite(current[i], false) else Rest
    case _ => Rest
  }

  /** While an offer is handled its key keeps or lacks its row. */
  ghost predicate PcFitsRows(l: Local)
    requires l.pc.Fits()
  {
    match l.pc
    case Sending(_, current, i, known) => known <==> current[i].key in l.rows
    case CountingDrop(_, current, i) => current[i].key in l.rows
    case Touching(_, current, i) => current[i].key in l.rows
    case Recording(_, current, i) => current[i].key !in l.rows
    case _ => true
  }

  ghost function StateOf(l: Local, k: Key): KeyState
    requires l.pc.Fits()
  {
    KeyState(StoredAt(l.rows, k), ModeOf(l.pc, k))
  }

  lemma StepFitsRows(prefixes: seq<string>, p: Product, l: Local)
    requires l.pc.Fits() && PcFitsRows(l)
    ensures PcFitsRows(Advance(prefixes, p, l)) && |Emitted(l.rows, l.pc)| <= 1
  {
  }

  /** One step is at most one letter. */
  lemma StepSpells(prefixes: seq<string>, p: Product, l: Local, k: Key)
    requires l.pc.Fits() && PcFitsRows(l)
    ensures var n := Advance(prefixes, p, l);
            && (var e := Emitted(l.rows, l.pc);
                if e != [] && Relevant(k, e[0])
                then Read(StateOf(l, k), e[0]) == Some(StateOf(n, k))
                else StateOf(n, k) == StateOf(l, k))
  {
  }

  lemma KeyEventsSnoc(k: Key, events: seq<Event>, e: Event)
    ensures KeyEvents(k, events + [e]) == if Relevant(k, e) then KeyEvents(k, events) + [e] else KeyEvents(k, events)
  {
    assert (events + [e])[..|events|] == events;
  }

  lemma ReadAllSnoc(st: KeyState, es: seq<Event>, e: Event)
    ensures ReadAll(st, es + [e]) == if ReadAll(st, es).None? then None else Read(ReadAll(st, es).value, e)
  {
    assert (es + [e])[..|es|] == es;
  }

  /** Reading on: one more event, one more letter if it concerns the key. */
  lemma ReadOn(st: KeyState, k: Key, log: seq<Event>, e: Event, a: KeyState, b: KeyState)
    requires ReadAll(st, KeyEvents(k, log)) == Some(a)
    requires if Relevant(k, e) then Read(a, e) == Some(b) else a == b
    ensures ReadAll(st, KeyEvents(k, log + [e])) == Some(b)
  {
    KeyEventsSnoc(k, log, e);
    if Relevant(k, e) {
      ReadAllSnoc(st, KeyEvents(k, log), e);
    }
  }

  /** The events read so far lead to the state the watcher is in. */
  ghost predicate Tracks(st: KeyState, l: Local, k: Key)
    requires l.pc.Fits()
  {
    PcFitsRows(l) && ReadAll(st, KeyEvents(k, l.log)) == Some(StateOf(l, k))
  }

  lemma MoveSpells(prefixes: seq<string>, p: Product, st: KeyState, l: Local, k: Key)
    requires l.pc.Fits() && Tracks(st, l, k)
    ensures Tracks(st, Advance(prefixes, p, l), k)
  {
    var e, n := Emitted(l.rows, l.pc), Advance(prefixes, p, l);
    StepFitsRows(prefixes, p, l);
    StepSpells(prefixes, p, l, k);
    if e == [] {
      assert n.log == l.log;
    } else {
      assert e == [e[0]];
      ReadOn(st, k, l.log, e[0], StateOf(l, k), StateOf(n, k));
    }
  }

  lemma {:induction false} SoloSpells(prefixes: seq<string>, p: Product, rows: Table, acts: seq<Solo>, k: Key)
    ensures Tracks(KeyState(StoredAt(rows, k), Rest), SoloRun(prefixes, p, Local(rows, Idle, []), acts), k)
  {
    if acts == [] {
    } else {
      var n := |acts| - 1;
      SoloSpells(prefixes, p, rows, acts[..n], k);
      var l := SoloRun(prefixes, p, Local(rows, Idle, []), acts[..n]);
      match acts[n]
      case Start(_) =>
      case Move => MoveSpells(prefixes, p, KeyState(StoredAt(rows, k), Rest), l, k);
      case Halt =>
        ReadOn(KeyState(StoredAt(rows, k), Rest), k, l.log, Crashed, StateOf(l, k),
               KeyState(StoredAt(l.rows, k), Rest));
    }
  }

  /** All of a key's events are its owner's. */
  lemma {:induction false} KeyLogIsOwners(owner: Owner, log: seq<Entry>, k: Key)
    requires LogOwned(owner, log)
    ensures KeyLog(k, log) == KeyEvents(k, LogOf(owner(k), log))
  {
    if log == [] {
    } else {
      var n := |log| - 1;
      assert LogOwned(owner, log[..n]) by {
        forall i, x | 0 <= i < n && x in Mentions(log[..n][i].event) ensures owner(x) == log[..n][i].who {
          assert log[..n][i] == log[i];
        }
      }
      KeyLogIsOwners(owner, log[..n], k);
      var e := log[n].event;
      var before := LogOf(owner(k), log[..n]);
      assert log[n].who != owner(k) ==> k !in Mentions(e);
      if log[n].who == owner(k) || e.Crashed? {
        KeyEventsSnoc(k, before, e);
      } else {
        assert before + [] == before;
      }
    }
  }

  /** Before anything has happened: every watcher idle, nothing logged. */
  ghost predicate Fresh(s: System) {
    s.log == [] && forall w :: 0 <= w < |s.pcs| ==> s.pcs[w].Idle?
  }

  /** A run of a configuration that keeps names and key spaces apart. */
  ghost predicate Admissible(c: Config, owner: Owner, s: System, acts: seq<Action>) {
    && DistinctNames(c) && ActsOwned(owner, acts)
    && Inv(c, owner, s) && Fresh(s)
  }

  /** A start of the service on a table whose rows carry their owners' names. */
  lemma StartIsAdmissible(c: Config, owner: Owner, rows: Table, acts: seq<Action>)
    requires DistinctNames(c) && ActsOwned(owner, acts) && RowsOwned(c, owner, rows)
    ensures Admissible(c, owner, System(rows, seq(|c.products|, _ => Idle), []), acts)
  {
  }

  /** In every interleaved run, with faults and crashes, each key's events spell the protocol. */
  lemma EveryRunSpells(c: Config, owner: Owner, s: System, acts: seq<Action>, k: Key)
    requires Admissible(c, owner, s, acts) && owner(k) < |c.products|
    ensures var n := Run(c, s, acts);
            ReadAll(KeyState(StoredAt(s.rows, k), Rest), KeyLog(k, n.log)) ==
            Some(KeyState(StoredAt(n.rows, k), ModeOf(n.pcs[owner(k)], k)))
  {
    var w := owner(k);
    var n := Run(c, s, acts);
    NonInterference(c, owner, s, acts, w);
    SoloSpells(c.prefixes, c.products[w], Share(owner, w, s.rows), ActsOf(w, acts), k);
    KeyLogIsOwners(owner, n.log, k);
    assert View(owner, s, w) == Local(Share(owner, w, s.rows), Idle, []);
  }

  // ----- bookkeeping on a key's events, independent of the machine

  predicate Delivered(e: Event) { e.Sent? && e.ok }

  function CountDelivered(es: seq<Event>): nat {
    if es == [] then 0
    else CountDelivered(es[..|es| - 1]) + if Delivered(es[|es| - 1]) then 1 else 0
  }

  function CountInserted(es: seq<Event>): nat {
    if es == [] then 0
    else
      var e := es[|es| - 1];
      CountInserted(es[..|es| - 1]) + if e.Inserted? && e.ok then 1 else 0
  }

  /** Replays the table operations on a key. */
  function RowAfter(row: Stored, es: seq<Event>): Stored {
    if es == [] then row
    else
      var before := RowAfter(row, es[..|es| - 1]);
      match es[|es| - 1]
      case Dropped(_, ok) => if ok then None else before
      case Inserted(a, ok) => if ok then Some(a.price) else before
      case Refreshed(a, ok) => if ok && before.Some? then Some(a.price) else before
      case _ => before
  }

  /** A write that replaces a known price by a strictly lower one. */
  predicate Lowers(before: Stored, e: Event) {
    e.Refreshed? && e.ok && before.Some? && IsDrop(before.value, e.offer.price)
  }

  function CountLowered(row: Stored, es: seq<Event>): nat {
    if es == [] then 0
    else
      CountLowered(row, es[..|es| - 1]) +
      if Lowers(RowAfter(row, es[..|es| - 1]), es[|es| - 1]) then 1 else 0
  }

  /** A delivered notification whose write then fails or never comes. */
  predicate LosesWrite(prev: Event, e: Event) {
    Delivered(prev) && (e.Crashed? || ((e.Refreshed? || e.Inserted?) && !e.ok))
  }

  function CountLost(es: seq<Event>): nat {
    if |es| < 2 then 0
    else CountLost(es[..|es| - 1]) + if LosesWrite(es[|es| - 2], es[|es| - 1]) then 1 else 0
  }

  function InFlight(es: seq<Event>): nat {
    if es != [] && Delivered(es[|es| - 1]) then 1 else 0
  }

  // ----- what the protocol forces

  /** How the mode follows from the last event and the replayed row. */
  ghost predicate Shape(row: Stored, es: seq<Event>, st: KeyState) {
    && st.row == RowAfter(row, es)
    && (match st.mode
        case Rest => es != [] ==> !Delivered(es[|es| - 1])
        case MustSend(a, known) =>
          && es != [] && es[|es| - 1] == LookedUp(a, true)
          && (if known then st.row.Some? && IsDrop(st.row.value, a.price) else st.row.None?)
        case MustWrite(a, known) =>
          && es != []
          && (if known then
                && st.row.Some?
                && es[|es| - 1] == (if IsDrop(st.row.value, a.price) then Sent(a, true) else LookedUp(a, true))
              else st.row.None? && es[|es| - 1] == Sent(a, true)))
  }

  lemma {:induction false} SpelledShape(row: Stored, es: seq<Event>)
    requires Spells(row, es)
    ensures Shape(row, es, ReadAll(KeyState(row, Rest), es).value)
  {
    if es == [] {
    } else {
      SpelledShape(row, es[..|es| - 1]);
    }
  }

  lemma {:induction false} PrefixSpells(row: Stored, es: seq<Event>, i: nat)
    requires Spells(row, es) && i <= |es|
    ensures Spells(row, es[..i])
  {
    if i < |es| {
      PrefixSpells(row, es[..|es| - 1], i);
      assert es[..|es| - 1][..i] == es[..i];
    } else {
      assert es[..i] == es;
    }
  }

  lemma {:induction false} SpelledConservation(row: Stored, es: seq<Event>)
    requires Spells(row, es)
    ensures CountDelivered(es) ==
            CountInserted(es) + CountLowered(row, es) + CountLost(es) + InFlight(es)
  {
    if es == [] {
    } else {
      SpelledConservation(row, es[..|es| - 1]);
      SpelledShape(row, es[..|es| - 1]);
    }
  }

  /** What comes right before a write that lowers a price, or that inserts a row. */
  lemma SpelledWrite(row: Stored, es: seq<Event>, i: nat)
    requires Spells(row, es) && i < |es|
    ensures Lowers(RowAfter(row, es[..i]), es[i]) ==> i > 0 && es[i - 1] == Sent(es[i].offer, true)
    ensures es[i].Inserted? ==> i > 0 && es[i - 1] == Sent(es[i].offer, true) && RowAfter(row, es[..i]).None?
  {
    PrefixSpells(row, es, i);
    PrefixSpells(row, es, i + 1);
    SpelledShape(row, es[..i]);
    assert es[..i + 1][..i] == es[..i];
  }

  /** What comes right after a lookup that finds a drop, and after a failed notification. */
  lemma SpelledNext(row: Stored, es: seq<Event>, i: nat)
    requires Spells(row, es) && i + 1 < |es|
    ensures es[i].LookedUp? && es[i].ok && RowAfter(row, es[..i]).Some?
            && IsDrop(RowAfter(row, es[..i]).value, es[i].offer.price) ==>
              es[i + 1].Crashed? || (es[i + 1].Sent? && es[i + 1].offer == es[i].offer)
    ensures es[i].Sent? && !es[i].ok ==> es[i + 1].Crashed? || es[i + 1].Dropped? || es[i + 1].LookedUp?
  {
    PrefixSpells(row, es, i);
    PrefixSpells(row, es, i + 1);
    PrefixSpells(row, es, i + 2);
    SpelledShape(row, es[..i]);
    assert es[..i + 1][..i] == es[..i] && es[..i + 2][..i + 1] == es[..i + 1];
  }

  // ----- a stored price over a window of events

  /** The key has a row with a known price below p. */
  predicate Below(st: Stored, p: real) {
    st.Some? && st.value.Some? && st.value.value < p
  }

  /** This event takes the row away. */
  predicate Removes(e: Event) { e.Dropped? && e.ok }

  /** This event replaces whatever price was stored by none. */
  predicate Blanks(e: Event) { e.Refreshed? && e.ok && e.offer.price.None? }

  predicate Lives(es: seq<Event>, i: nat, j: nat)
    requires j <= |es|
  {
    forall m :: i <= m < j ==> !Removes(es[m])
  }

  /** The write after which the price is below p for good, up to j. */
  ghost predicate Crosses(row: Stored, es: seq<Event>, j: nat, p: real, m: nat)
    requires j <= |es|
  {
    && m < j && es[m].Refreshed? && es[m].ok && es[m].offer.price.Some? && es[m].offer.price.value < p
    && RowAfter(row, es[..m]).Some? && !Below(RowAfter(row, es[..m]), p)
    && forall x :: m < x <= j ==> Below(RowAfter(row, es[..x]), p)
  }

  /** Reading one more event. */
  lemma RowAfterSnoc(row: Stored, es: seq<Event>, m: nat)
    requires m < |es|
    ensures RowAfter(row, es[..m + 1]) == RowAfter(row, es[..m] + [es[m]])
    ensures (es[..m] + [es[m]])[..m] == es[..m]
  {
    assert es[..m + 1] == es[..m] + [es[m]];
  }

  /** A row that lives on and ends below p crossed p somewhere, for the last time at m. */
  lemma {:induction false} LastCrossing(row: Stored, es: seq<Event>, i: nat, j: nat, p: real) returns (m: nat)
    requires Spells(row, es) && i <= j <= |es| && Lives(es, i, j)
    requires RowAfter(row, es[..i]).Some? && !Below(RowAfter(row, es[..i]), p)
    requires Below(RowAfter(row, es[..j]), p)
    ensures i <= m && Crosses(row, es, j, p, m)
    decreases j
  {
    var n := j - 1;
    RowAfterSnoc(row, es, n);
    SpelledWrite(row, es, n);
    if Below(RowAfter(row, es[..n]), p) {
      m := LastCrossing(row, es, i, n, p);
    } else {
      m := n;
      RowStays(row, es, i, n);
    }
  }

  lemma {:induction false} RowStays(row: Stored, es: seq<Event>, i: nat, j: nat)
    requires i <= j <= |es| && Lives(es, i, j) && RowAfter(row, es[..i]).Some?
    ensures RowAfter(row, es[..j]).Some?
    decreases j
  {
    if i == j {
    } else {
      RowStays(row, es, i, j - 1);
      RowAfterSnoc(row, es, j - 1);
    }
  }

  /** Only a refresh without a price makes a known price unknown while the row lives. */
  lemma {:induction false} PriceStays(row: Stored, es: seq<Event>, i: nat, j: nat)
    requires Spells(row, es) && i <= j <= |es| && Lives(es, i, j)
    requires RowAfter(row, es[..i]).Some? && RowAfter(row, es[..i]).value.Some?
    requires forall m :: i <= m < j ==> !Blanks(es[m])
    ensures RowAfter(row, es[..j]).Some? && RowAfter(row, es[..j]).value.Some?
    decreases j
  {
    if i == j {
    } else {
      PriceStays(row, es, i, j - 1);
      RowAfterSnoc(row, es, j - 1);
      SpelledWrite(row, es, j - 1);
    }
  }

  /** The write at m was announced: it comes right after the delivered notification of its own offer. */
  predicate Announced(es: seq<Event>, m: int) {
    0 < m < |es| && es[m].Refreshed? && es[m - 1] == Sent(es[m].offer, true)
  }

  /** A crossing write is announced exactly when the price it replaces is known. */
  lemma CrossingAnnounced(row: Stored, es: seq<Event>, j: nat, p: real, m: nat)
    requires Spells(row, es) && j <= |es| && Crosses(row, es, j, p, m)
    ensures Announced(es, m) <==> RowAfter(row, es[..m]).value.Some?
  {
    PrefixSpells(row, es, m);
    PrefixSpells(row, es, m + 1);
    SpelledShape(row, es[..m]);
    assert es[..m + 1][..m] == es[..m];
  }

  // ----- the laws, for every run

  /**
   Conservation: delivered notifications for a key are its row inserts, plus the
   updates that lower a known price, plus the notifications whose write failed
   or was cut off by a crash, plus the one whose write is still to come.
   */
  lemma Conservation(c: Config, owner: Owner, s: System, acts: seq<Action>, k: Key)
    requires Admissible(c, owner, s, acts) && owner(k) < |c.products|
    ensures var es := KeyLog(k, Run(c, s, acts).log);
            CountDelivered(es) ==
            CountInserted(es) + CountLowered(StoredAt(s.rows, k), es) + CountLost(es) + InFlight(es)
  {
    EveryRunSpells(c, owner, s, acts, k);
    SpelledConservation(StoredAt(s.rows, k), KeyLog(k, Run(c, s, acts).log));
  }

  /** The log tells the table: replaying a key's events gives its row. */
  lemma LogExplainsRow(c: Config, owner: Owner, s: System, acts: seq<Action>, k: Key)
    requires Admissible(c, owner, s, acts) && owner(k) < |c.products|
    ensures var n := Run(c, s, acts);
            StoredAt(n.rows, k) == RowAfter(StoredAt(s.rows, k), KeyLog(k, n.log))
  {
    EveryRunSpells(c, owner, s, acts, k);
    SpelledShape(StoredAt(s.rows, k), KeyLog(k, Run(c, s, acts).log));
  }

  /**
   Drops are attempted: a lookup that finds a lower price is followed by an attempt
   to notify, unless the run ends or crashes there; a write that lowers a known
   price comes right after the delivered notification of that very offer; and a
   failed notification is never followed by a write.
   */
  lemma DropsAreAttempted(c: Config, owner: Owner, s: System, acts: seq<Action>, k: Key, i: nat)
    requires Admissible(c, owner, s, acts) && owner(k) < |c.products|
    requires i < |KeyLog(k, Run(c, s, acts).log)|
    ensures var es := KeyLog(k, Run(c, s, acts).log);
            var before := RowAfter(StoredAt(s.rows, k), es[..i]);
            && (Lowers(before, es[i]) ==> Announced(es, i))
            && (es[i].LookedUp? && es[i].ok && i + 1 < |es| && before.Some?
                && IsDrop(before.value, es[i].offer.price) ==>
                  es[i + 1].Crashed? || (es[i + 1].Sent? && es[i + 1].offer == es[i].offer))
            && (es[i].Sent? && !es[i].ok && i + 1 < |es| ==>
                  es[i + 1].Crashed? || es[i + 1].Dropped? || es[i + 1].LookedUp?)
  {
    var es := KeyLog(k, Run(c, s, acts).log);
    var row := StoredAt(s.rows, k);
    EveryRunSpells(c, owner, s, acts, k);
    SpelledWrite(row, es, i);
    if i + 1 < |es| {
      SpelledNext(row, es, i);
    }
  }

  /**
   When a drop can be swallowed: whenever a living row's price gets from p (or
   from unknown) to a known price below p, there is a last write that took it
   there, and that write was announced exactly when it replaced a known price.
   */
  lemma DropIsAnnouncedExactly(c: Config, owner: Owner, s: System, acts: seq<Action>, k: Key, i: nat, j: nat, p: real)
    returns (m: nat)
    requires Admissible(c, owner, s, acts) && owner(k) < |c.products|
    requires i <= j <= |KeyLog(k, Run(c, s, acts).log)|
    requires var es := KeyLog(k, Run(c, s, acts).log);
             && Lives(es, i, j)
             && RowAfter(StoredAt(s.rows, k), es[..i]).Some? && !Below(RowAfter(StoredAt(s.rows, k), es[..i]), p)
             && Below(RowAfter(StoredAt(s.rows, k), es[..j]), p)
    ensures var row, es := StoredAt(s.rows, k), KeyLog(k, Run(c, s, acts).log);
            && i <= m && Crosses(row, es, j, p, m)
            && (Announced(es, m) <==> RowAfter(row, es[..m]).value.Some?)
  {
    var row, es := StoredAt(s.rows, k), KeyLog(k, Run(c, s, acts).log);
    EveryRunSpells(c, owner, s, acts, k);
    m := LastCrossing(row, es, i, j, p);
    CrossingAnnounced(row, es, j, p, m);
  }

  /**
   A pending drop is not swallowed as long as every sighting stored in between
   carries a price: if a living row's price gets from p to a known price below p,
   with whatever failed notifications and writes and crashes in between, then a
   write below p came right after the delivered notification of that very offer.
   */
  lemma DropNeverSwallowed(c: Config, owner: Owner, s: System, acts: seq<Action>, k: Key, i: nat, j: nat, p: real)
    returns (m: nat)
    requires Admissible(c, owner, s, acts) && owner(k) < |c.products|
    requires i <= j <= |KeyLog(k, Run(c, s, acts).log)|
    requires var es := KeyLog(k, Run(c, s, acts).log);
             && Lives(es, i, j) && (forall x :: i <= x < j ==> !Blanks(es[x]))
             && RowAfter(StoredAt(s.rows, k), es[..i]) == Some(Some(p))
             && Below(RowAfter(StoredAt(s.rows, k), es[..j]), p)
    ensures var row, es := StoredAt(s.rows, k), KeyLog(k, Run(c, s, acts).log);
            && i <= m < j && Lowers(RowAfter(row, es[..m]), es[m])
            && Announced(es, m) && es[m].offer.price.value < p
  {
    var row, es := StoredAt(s.rows, k), KeyLog(k, Run(c, s, acts).log);
    m := DropIsAnnouncedExactly(c, owner, s, acts, k, i, j, p);
    EveryRunSpells(c, owner, s, acts, k);
    PriceStays(row, es, i, m);
  }

  /** No silent row: a row appears only right after a delivered notification sent while there was none. */
  lemma InsertWasAnnounced(c: Config, owner: Owner, s: System, acts: seq<Action>, k: Key, i: nat)
    requires Admissible(c, owner, s, acts) && owner(k) < |c.products|
    requires i < |KeyLog(k, Run(c, s, acts).log)|
    ensures var es := KeyLog(k, Run(c, s, acts).log);
            es[i].Inserted? ==>
              i > 0 && es[i - 1] == Sent(es[i].offer, true) && RowAfter(StoredAt(s.rows, k), es[..i - 1]).None?
  {
    var es := KeyLog(k, Run(c, s, acts).log);
    EveryRunSpells(c, owner, s, acts, k);
    SpelledWrite(StoredAt(s.rows, k), es, i);
    if es[i].Inserted? {
      assert es[..i][..i - 1] == es[..i - 1];
    }
  }

  lemma {:induction false} KeyLogIsAbout(k: Key, log: seq<Entry>)
    ensures forall e :: e in KeyLog(k, log) ==> Relevant(k, e)
  {
    if log == [] {
    } else {
      KeyLogIsAbout(k, log[..|log| - 1]);
    }
  }

  /** The insert after the last time the key had no row, if it had none after x events. */
  lemma {:induction false} RowHasInsert(row: Stored, es: seq<Event>, x: nat) returns (i: nat)
    requires x <= |es| && RowAfter(row, es[..x]).None? && RowAfter(row, es).Some?
    ensures x <= i < |es| && es[i].Inserted? && es[i].ok && RowAfter(row, es[..i]).None?
    ensures forall m :: i < m <= |es| ==> RowAfter(row, es[..m]).Some?
  {
    var n := |es| - 1;
    assert es[..|es|] == es;
    if RowAfter(row, es[..n]).None? {
      i := n;
    } else {
      assert es[..n][..x] == es[..x];
      i := RowHasInsert(row, es[..n], x);
      forall m | i < m <= |es| ensures RowAfter(row, es[..m]).Some? {
        if m <= n {
          assert es[..n][..m] == es[..m];
        }
      }
      assert es[..n][..i] == es[..i];
    }
  }

  /** The j-th event delivers a notification for k, and the row it leads to is there ever since. */
  ghost predicate AnnouncedAt(k: Key, row: Stored, es: seq<Event>, j: int) {
    && 0 <= j < |es|
    && Delivered(es[j]) && es[j].offer.key == k
    && RowAfter(row, es[..j]).None?
    && forall m :: j + 1 < m <= |es| ==> RowAfter(row, es[..m]).Some?
  }

  /**
   In every reachable state, a row whose key once had none, be it at the start or
   after a delete, was announced by a notification delivered since the key last
   had none. Only a row that was there at the start and never left is exempt.
   */
  lemma NoSilentRow(c: Config, owner: Owner, s: System, acts: seq<Action>, k: Key, x: nat)
    requires Admissible(c, owner, s, acts) && owner(k) < |c.products|
    requires k in Run(c, s, acts).rows
    requires var es := KeyLog(k, Run(c, s, acts).log);
             x <= |es| && RowAfter(StoredAt(s.rows, k), es[..x]).None?
    ensures exists j :: AnnouncedAt(k, StoredAt(s.rows, k), KeyLog(k, Run(c, s, acts).log), j)
  {
    var log := Run(c, s, acts).log;
    var row, es := StoredAt(s.rows, k), KeyLog(k, log);
    LogExplainsRow(c, owner, s, acts, k);
    var i := RowHasInsert(row, es, x);
    InsertWasAnnounced(c, owner, s, acts, k, i);
    KeyLogIsAbout(k, log);
    assert es[i - 1] in es;
    assert AnnouncedAt(k, row, es, i - 1);
  }
}
