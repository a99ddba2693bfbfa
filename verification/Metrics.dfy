/** Per-source counters and gauges, and the samples the endpoint exposes. */
module Metrics {
  import opened Model
  import opened Tick

  datatype SourceState = SourceState(
    lastCheck: int,
    success: int,
    available: int,
    stock: int,
    minPrice: real,
    hasPrice: bool,
    checksSuccess: nat,
    checksError: nat,
    notifications: nat)

  type States = map<string, SourceState>

  const FRESH := SourceState(0, 0, 0, 0, 0.0, false, 0, 0, 0)

  function Get(src: States, source: string): SourceState {
    if source in src then src[source] else FRESH
  }

  function AfterCheck(s: SourceState, at: int, good: bool, available: nat, stock: int,
                      minPrice: Option<real>): SourceState {
    if !good then s.(lastCheck := at, success := 0, checksError := s.checksError + 1)
    else
      var t := s.(lastCheck := at, success := 1, checksSuccess := s.checksSuccess + 1,
                  available := available, stock := stock);
      if minPrice.Some? then t.(minPrice := minPrice.value, hasPrice := true) else t.(hasPrice := false)
  }

  function Observed(src: States, e: Event): States {
    match e
    case Polled(source, at, good, available, stock, minPrice) =>
      src[source := AfterCheck(Get(src, source), at, good, available, stock, minPrice)]
    case Counted(source) =>
      var s := Get(src, source);
      src[source := s.(notifications := s.notifications + 1)]
    case _ => src
  }

  function ObservedAll(src: States, events: seq<Event>): States {
    if events == [] then src
    else Observed(ObservedAll(src, events[..|events| - 1]), events[|events| - 1])
  }

  lemma {:induction false} ObservedAllConcat(src: States, a: seq<Event>, b: seq<Event>)
    ensures ObservedAll(src, a + b) == ObservedAll(ObservedAll(src, a), b)
  {
    if b == [] {
      assert a + b == a;
    } else {
      var n := |b| - 1;
      assert (a + b)[..|a + b| - 1] == a + b[..n];
      ObservedAllConcat(src, a, b[..n]);
    }
  }

  class Recorder {
    var src: States

    constructor ()
      ensures src == map[]
    {
      src := map[];
    }

    /** The map lookup that creates a zero state on first use. */
    method Ensure(source: string) returns (s: SourceState)
      modifies this
      ensures source in src && s == src[source] == Get(old(src), source)
      ensures src == old(src)[source := s]
    {
      if source !in src {
        src := src[source := FRESH];
      }
      s := src[source];
    }

    method ObserveCheck(source: string, at: int, good: bool, available: nat, stock: int, minPrice: Option<real>)
      modifies this
      ensures src == Observed(old(src), Polled(source, at, good, available, stock, minPrice))
    {
      var s := Ensure(source);
      s := s.(lastCheck := at);
      if !good {
        src := src[source := s.(success := 0, checksError := s.checksError + 1)];
        return;
      }
      s := s.(success := 1, checksSuccess := s.checksSuccess + 1, available := available, stock := stock);
      if minPrice.Some? {
        s := s.(minPrice := minPrice.value, hasPrice := true);
      } else {
        s := s.(hasPrice := false);
      }
      src := src[source := s];
    }

    method ObserveNotification(source: string)
      modifies this
      ensures src == Observed(old(src), Counted(source))
    {
      var s := Ensure(source);
      src := src[source := s.(notifications := s.notifications + 1)];
    }
  }
}
