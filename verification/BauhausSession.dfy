/** The harvested browser session, and the in-store check that uses it. */
module BauhausSession {
  import opened Model
  import Keys

  const TTL := 15 * 60

  /** The cached session; an empty cookie is none. */
  datatype Session = Session(cookie: string, userAgent: string, at: int)

  /** The clock when a session is asked for, what a harvest would bring, and the clock after it. */
  datatype Call = Call(now: int, harvest: Option<(string, string)>, done: int)

  predicate Harvests(s: Session, force: bool, q: Call) {
    force || s.cookie == "" || q.now - s.at >= TTL
  }

  function After(s: Session, force: bool, q: Call): Session {
    if Harvests(s, force, q) && q.harvest.Some? then Session(q.harvest.value.0, q.harvest.value.1, q.done) else s
  }

  function Returned(s: Session, force: bool, q: Call): Option<(string, string)> {
    if Harvests(s, force, q) then q.harvest else Some((s.cookie, s.userAgent))
  }

  const NONE := Session("", "", 0)

  // ----- any sequence of calls

  datatype Use = Use(force: bool, call: Call)

  function SessionAfter(uses: seq<Use>): Session {
    if uses == [] then NONE
    else After(SessionAfter(uses[..|uses| - 1]), uses[|uses| - 1].force, uses[|uses| - 1].call)
  }

  /** The i-th use made a harvest, and it succeeded. */
  predicate Harvested(uses: seq<Use>, i: int) {
    0 <= i < |uses| && uses[i].call.harvest.Some? && Harvests(SessionAfter(uses[..i]), uses[i].force, uses[i].call)
  }

  /** The clock never runs backwards, within a call or between calls. */
  predicate ClockRuns(uses: seq<Use>) {
    forall i, j :: 0 <= i <= j < |uses| ==>
      uses[i].call.now <= uses[j].call.done && (i < j ==> uses[i].call.done <= uses[j].call.now)
  }

  /** The i-th use is the latest successful harvest. */
  ghost predicate LatestHarvest(uses: seq<Use>, i: int) {
    Harvested(uses, i) && forall j :: i < j < |uses| ==> !Harvested(uses, j)
  }

  /** The cache is the latest successful harvest, undisturbed by failed ones. */
  lemma {:induction false} CacheIsLatestHarvest(uses: seq<Use>) returns (i: int)
    ensures i == -1 ==> SessionAfter(uses) == NONE && forall j :: 0 <= j < |uses| ==> !Harvested(uses, j)
    ensures i != -1 ==> LatestHarvest(uses, i)
                        && SessionAfter(uses) == Session(uses[i].call.harvest.value.0, uses[i].call.harvest.value.1,
                                                         uses[i].call.done)
  {
    i := -1;
    if uses == [] {
    } else {
      var n := |uses| - 1;
      var before := uses[..n];
      i := CacheIsLatestHarvest(before);
      forall j | 0 <= j < n ensures Harvested(uses, j) <==> Harvested(before, j) {
        assert before[..j] == uses[..j];
      }
      if Harvested(uses, n) {
        i := n;
      }
    }
  }

  /**
   Whatever the calls before: the cookie and user agent a call returns come from
   one and the same harvest, the latest successful one, which was made in this
   very call or is younger than the TTL and was not forced aside.
   */
  lemma ReturnedIsOneHarvest(uses: seq<Use>, n: int) returns (i: int)
    requires ClockRuns(uses) && n == |uses| - 1 && n >= 0
    requires Returned(SessionAfter(uses[..n]), uses[n].force, uses[n].call).Some?
    ensures LatestHarvest(uses, i)
    ensures Returned(SessionAfter(uses[..n]), uses[n].force, uses[n].call) == uses[i].call.harvest
    ensures i == n || (!uses[n].force && 0 <= uses[n].call.now - uses[i].call.done < 15 * 60)
  {
    i := CacheIsLatestHarvest(uses);
    var k := CacheIsLatestHarvest(uses[..n]);
    if !Harvested(uses, n) {
      assert SessionAfter(uses) == SessionAfter(uses[..n]);
      assert i < n;
    }
  }

  // ----- the in-store check

  datatype Place = Place(id: string, name: string)

  datatype Result = Result(amount: int, kind: string, purchasable: bool)

  /** The two queries a product and store may need; a reply of None is a failed request. */
  datatype Attempt = Attempt(first: Call, reply: Option<seq<Result>>, second: Call, retryReply: Option<seq<Result>>)

  function OfferOf(productID: string, store: Place, r: Result): Offer {
    Offer("bauhaus-store", store.name, "Midea PortaSplit", if r.amount < 1 then 1 else r.amount, None,
          "https://www.bauhaus.info/p/" + productID, store.name, InStore, "", true, false, 0,
          Keys.BauhausKey(store.id, productID))
  }

  /** Only purchasable store results, each with at least one piece. */
  function Build(productID: string, store: Place, rs: seq<Result>): seq<Offer> {
    if rs == [] then []
    else
      var n := |rs| - 1;
      Build(productID, store, rs[..n]) +
      if rs[n].kind == "STORE" && rs[n].purchasable then [OfferOf(productID, store, rs[n])] else []
  }

  /** An offer comes from a purchasable store result and from nothing else. */
  lemma {:induction false} BuildExact(productID: string, store: Place, rs: seq<Result>, o: Offer)
    ensures o in Build(productID, store, rs) <==>
            exists r :: r in rs && r.kind == "STORE" && r.purchasable && o == OfferOf(productID, store, r)
  {
    if rs == [] {
    } else {
      var n := |rs| - 1;
      BuildExact(productID, store, rs[..n], o);
      assert rs == rs[..n] + [rs[n]];
    }
  }

  /** Where a check stands: session, offers, failures, harvest attempts and failed first queries. */
  datatype Progress = Progress(session: Session, out: seq<Offer>, failed: nat, attempts: nat, retries: nat)

  function Query(s: Session, force: bool, q: Call, reply: Option<seq<Result>>): (Session, Option<seq<Result>>) {
    (After(s, force, q), if Returned(s, force, q).None? then None else reply)
  }

  function Visit(p: Progress, tlsOk: bool, productID: string, store: Place, a: Attempt): Progress {
    if !tlsOk then p.(failed := p.failed + 1, retries := p.retries + 1)
    else
      var (s1, r1) := Query(p.session, false, a.first, a.reply);
      var n1 := p.attempts + if Harvests(p.session, false, a.first) then 1 else 0;
      if r1.Some? then p.(session := s1, out := p.out + Build(productID, store, r1.value), attempts := n1)
      else
        var (s2, r2) := Query(s1, true, a.second, a.retryReply);
        if r2.Some?
        then Progress(s2, p.out + Build(productID, store, r2.value), p.failed, n1 + 1, p.retries + 1)
        else Progress(s2, p.out, p.failed + 1, n1 + 1, p.retries + 1)
  }

  function VisitStores(p: Progress, tlsOk: bool, productID: string, stores: seq<Place>, row: seq<Attempt>): Progress
    requires |row| == |stores|
  {
    if stores == [] then p
    else
      var n := |stores| - 1;
      Visit(VisitStores(p, tlsOk, productID, stores[..n], row[..n]), tlsOk, productID, stores[n], row[n])
  }

  ghost predicate Shaped(products: seq<string>, stores: seq<Place>, rows: seq<seq<Attempt>>) {
    |rows| == |products| && forall i :: 0 <= i < |rows| ==> |rows[i]| == |stores|
  }

  function VisitAll(p: Progress, tlsOk: bool, products: seq<string>, stores: seq<Place>,
                    rows: seq<seq<Attempt>>): Progress
    requires Shaped(products, stores, rows)
  {
    if products == [] then p
    else
      var n := |products| - 1;
      VisitStores(VisitAll(p, tlsOk, products[..n], stores, rows[..n]), tlsOk, products[n], stores, rows[n])
  }

  // ----- what a check returns, in terms of replies only

  /** The first query gets a session, and its request succeeds. */
  predicate FirstWorks(s: Session, a: Attempt) {
    && ((s.cookie != "" && a.first.now - s.at < 15 * 60) || a.first.harvest.Some?)
    && a.reply.Some?
  }

  /** The reply that counts: the first one if its query works, otherwise that of the forced retry. */
  function UsedReply(s: Session, a: Attempt): Option<seq<Result>> {
    if FirstWorks(s, a) then a.reply else if a.second.harvest.Some? then a.retryReply else None
  }

  /** The session the next pair finds. */
  function SessionLeft(s: Session, a: Attempt): Session {
    var first := After(s, false, a.first);
    if FirstWorks(s, a) then first else After(first, true, a.second)
  }

  function RowSession(s: Session, row: seq<Attempt>): Session {
    if row == [] then s else SessionLeft(RowSession(s, row[..|row| - 1]), row[|row| - 1])
  }

  function RowsSession(s: Session, rows: seq<seq<Attempt>>): Session {
    if rows == [] then s else RowSession(RowsSession(s, rows[..|rows| - 1]), rows[|rows| - 1])
  }

  /** The reply that counts for the j-th store of a row. */
  function Used(s: Session, row: seq<Attempt>, j: nat): Option<seq<Result>>
    requires j < |row|
  {
    UsedReply(RowSession(s, row[..j]), row[j])
  }

  /** A result's place: its product, its store, and its index in the reply that counts. */
  datatype Spot = Spot(i: nat, j: nat, x: nat)

  predicate Before(a: Spot, b: Spot) {
    a.i < b.i || (a.i == b.i && (a.j < b.j || (a.j == b.j && a.x < b.x)))
  }

  predicate Sells(r: Result) { r.kind == "STORE" && r.purchasable }

  /** There is a purchasable store result. */
  predicate SpotInRow(s: Session, row: seq<Attempt>, j: nat, x: nat) {
    j < |row| && Used(s, row, j).Some? && x < |Used(s, row, j).value| && Sells(Used(s, row, j).value[x])
  }

  /** What the offer for a result tells: its stock, at least one piece, no price, and its key. */
  predicate Tells(o: Offer, productID: string, store: Place, r: Result) {
    && o.source == "bauhaus-store" && o.storeName == store.name && o.location == store.name
    && o.stock >= 1 && (r.amount >= 1 ==> o.stock == r.amount) && (r.amount < 1 ==> o.stock == 1)
    && o.price.None? && o.url == "https://www.bauhaus.info/p/" + productID
    && o.channel == InStore && o.targeted && o.plz == "" && !o.preOrder
    && o.key == "bauhaus-store:" + store.id + ":" + productID
  }

  /** The offer at a spot of the i-th product's row, at a store from lo to hi, tells its result. */
  ghost predicate TellsSpot(s: Session, productID: string, stores: seq<Place>, row: seq<Attempt>, i: nat,
                            lo: nat, hi: nat, o: Offer, y: Spot)
    requires |row| == |stores|
  {
    && y.i == i && lo <= y.j < hi && SpotInRow(s, row, y.j, y.x)
    && Tells(o, productID, stores[y.j], Used(s, row, y.j).value[y.x])
  }

  /** `more` has one telling offer for each purchasable store result at the stores from lo to hi, in order. */
  ghost predicate RowAnswer(s: Session, productID: string, stores: seq<Place>, row: seq<Attempt>, i: nat,
                            lo: nat, hi: nat, more: seq<Offer>, pos: seq<Spot>)
    requires |row| == |stores|
  {
    && |pos| == |more|
    && (forall m :: 0 <= m < |pos| ==> TellsSpot(s, productID, stores, row, i, lo, hi, more[m], pos[m]))
    && (forall m, l :: 0 <= m < l < |pos| ==> Before(pos[m], pos[l]))
    && (forall j, x :: lo <= j < hi && SpotInRow(s, row, j, x) ==> Spot(i, j, x) in pos)
  }

  lemma BuildMore(productID: string, store: Place, rs: seq<Result>, n: nat)
    requires |rs| == n + 1
    ensures Build(productID, store, rs) ==
            Build(productID, store, rs[..n]) + if Sells(rs[n]) then [OfferOf(productID, store, rs[n])] else []
  {
  }

  lemma {:induction false} BuildSpots(productID: string, store: Place, rs: seq<Result>, i: nat, j: nat)
    returns (pos: seq<Spot>)
    ensures |pos| == |Build(productID, store, rs)|
    ensures forall m :: 0 <= m < |pos| ==>
              && pos[m].i == i && pos[m].j == j && pos[m].x < |rs| && Sells(rs[pos[m].x])
              && Tells(Build(productID, store, rs)[m], productID, store, rs[pos[m].x])
    ensures forall m, l :: 0 <= m < l < |pos| ==> Before(pos[m], pos[l])
    ensures forall x: nat :: x < |rs| && Sells(rs[x]) ==> Spot(i, j, x) in pos
  {
    if rs == [] {
      pos := [];
    } else {
      var n := |rs| - 1;
      var front := BuildSpots(productID, store, rs[..n], i, j);
      assert forall x :: 0 <= x < n ==> rs[..n][x] == rs[x];
      pos := front + if Sells(rs[n]) then [Spot(i, j, n)] else [];
      OfferTells(productID, store, rs[n]);
      BuildMore(productID, store, rs, n);
      forall x: nat | x < |rs| && Sells(rs[x]) ensures Spot(i, j, x) in pos {
        if x < n {
          assert Spot(i, j, x) in front;
        } else {
          assert pos[|front|] == Spot(i, j, n);
        }
      }
    }
  }

  lemma OfferTells(productID: string, store: Place, r: Result)
    ensures Tells(OfferOf(productID, store, r), productID, store, r)
  {
  }

  /** One pair of product and store: its offers, its failure and its session. */
  lemma VisitUses(p: Progress, tlsOk: bool, productID: string, store: Place, a: Attempt)
    ensures var v, u := Visit(p, tlsOk, productID, store, a), UsedReply(p.session, a);
            if !tlsOk then v.out == p.out && v.failed == p.failed + 1 && v.session == p.session
            else
              && v.session == SessionLeft(p.session, a)
              && v.out == p.out + (if u.Some? then Build(productID, store, u.value) else [])
              && v.failed == p.failed + (if u.Some? then 0 else 1)
  {
  }

  /** Both queries of the row's j-th store fail. */
  predicate FailsAt(s: Session, row: seq<Attempt>, j: nat) {
    j < |row| && Used(s, row, j).None?
  }

  ghost predicate RowFails(s: Session, row: seq<Attempt>) {
    exists j: nat :: FailsAt(s, row, j)
  }

  lemma RowFailsMore(s: Session, row: seq<Attempt>, n: nat)
    requires n + 1 == |row|
    ensures RowFails(s, row) <==> RowFails(s, row[..n]) || Used(s, row, n).None?
  {
    forall j: nat | j < n ensures FailsAt(s, row[..n], j) <==> FailsAt(s, row, j) {
      PrefixUsed(s, row, n, j);
    }
    assert FailsAt(s, row, n) <==> Used(s, row, n).None?;
    if j: nat :| FailsAt(s, row, j) {
      assert j == n || FailsAt(s, row[..n], j);
    }
    if j: nat :| FailsAt(s, row[..n], j) {
      assert FailsAt(s, row, j);
    }
  }

  lemma PrefixUsed(s: Session, row: seq<Attempt>, n: nat, j: nat)
    requires n <= |row| && j < n
    ensures Used(s, row[..n], j) == Used(s, row, j)
  {
    assert row[..n][..j] == row[..j];
  }

  /** What holds of a shorter row holds of the longer one, up to there. */
  lemma RowLonger(s: Session, productID: string, stores: seq<Place>, row: seq<Attempt>, i: nat, n: nat,
                  a: seq<Offer>, x: seq<Spot>)
    requires n <= |row| == |stores| && RowAnswer(s, productID, stores[..n], row[..n], i, 0, n, a, x)
    ensures RowAnswer(s, productID, stores, row, i, 0, n, a, x)
  {
    forall j, k | 0 <= j < n && SpotInRow(s, row, j, k) ensures Spot(i, j, k) in x {
      PrefixUsed(s, row, n, j);
      assert SpotInRow(s, row[..n], j, k);
    }
    forall m | 0 <= m < |x| ensures TellsSpot(s, productID, stores, row, i, 0, n, a[m], x[m]) {
      assert TellsSpot(s, productID, stores[..n], row[..n], i, 0, n, a[m], x[m]);
      PrefixUsed(s, row, n, x[m].j);
    }
  }

  lemma RowMore(s: Session, productID: string, stores: seq<Place>, row: seq<Attempt>, i: nat, n: nat, hi: nat,
                a: seq<Offer>, x: seq<Spot>, b: seq<Offer>, y: seq<Spot>)
    requires |row| == |stores| && n <= hi <= |row|
    requires RowAnswer(s, productID, stores, row, i, 0, n, a, x)
    requires RowAnswer(s, productID, stores, row, i, n, hi, b, y)
    ensures RowAnswer(s, productID, stores, row, i, 0, hi, a + b, x + y)
  {
    forall m | 0 <= m < |x + y| ensures TellsSpot(s, productID, stores, row, i, 0, hi, (a + b)[m], (x + y)[m]) {
      if m < |x| {
        assert TellsSpot(s, productID, stores, row, i, 0, n, a[m], x[m]);
      } else {
        assert TellsSpot(s, productID, stores, row, i, n, hi, b[m - |x|], y[m - |x|]);
      }
    }
    forall m, l | 0 <= m < l < |x + y| ensures Before((x + y)[m], (x + y)[l]) {
      if m < |x| <= l {
        assert TellsSpot(s, productID, stores, row, i, 0, n, a[m], x[m]);
        assert TellsSpot(s, productID, stores, row, i, n, hi, b[l - |x|], y[l - |x|]);
      }
    }
  }

  /** One pair's offers. */
  lemma PairAnswers(s: Session, productID: string, stores: seq<Place>, row: seq<Attempt>, i: nat, n: nat)
    returns (b: seq<Offer>, y: seq<Spot>)
    requires n < |row| == |stores|
    ensures b == if Used(s, row, n).Some? then Build(productID, stores[n], Used(s, row, n).value) else []
    ensures RowAnswer(s, productID, stores, row, i, n, n + 1, b, y)
  {
    b, y := [], [];
    if Used(s, row, n).Some? {
      b := Build(productID, stores[n], Used(s, row, n).value);
      y := BuildSpots(productID, stores[n], Used(s, row, n).value, i, n);
    }
  }

  lemma {:induction false} RowAnswers(p: Progress, productID: string, stores: seq<Place>, row: seq<Attempt>, i: nat)
    returns (more: seq<Offer>, pos: seq<Spot>)
    requires |row| == |stores|
    ensures var end := VisitStores(p, true, productID, stores, row);
            && end.session == RowSession(p.session, row) && end.out == p.out + more
            && end.failed >= p.failed
            && (end.failed > p.failed <==> RowFails(p.session, row))
    ensures RowAnswer(p.session, productID, stores, row, i, 0, |row|, more, pos)
  {
    if stores == [] {
      more, pos := [], [];
      assert p.out + [] == p.out;
    } else {
      var n := |stores| - 1;
      var s := p.session;
      var front, at := RowAnswers(p, productID, stores[..n], row[..n], i);
      var mid := VisitStores(p, true, productID, stores[..n], row[..n]);
      VisitUses(mid, true, productID, stores[n], row[n]);
      RowFailsMore(s, row, n);
      var b, y := PairAnswers(s, productID, stores, row, i, n);
      RowLonger(s, productID, stores, row, i, n, front, at);
      RowMore(s, productID, stores, row, i, n, n + 1, front, at, b, y);
      more, pos := front + b, at + y;
      Regroup(p.out, front, b);
    }
  }

  /** There is a purchasable store result in the reply that counts there. */
  predicate IsSpot(tlsOk: bool, s: Session, rows: seq<seq<Attempt>>, y: Spot) {
    tlsOk && y.i < |rows| && SpotInRow(RowsSession(s, rows[..y.i]), rows[y.i], y.j, y.x)
  }

  /** The result there. */
  function ResultAt(tlsOk: bool, s: Session, rows: seq<seq<Attempt>>, y: Spot): Result
    requires IsSpot(tlsOk, s, rows, y)
  {
    Used(RowsSession(s, rows[..y.i]), rows[y.i], y.j).value[y.x]
  }

  /** Both queries failed for the j-th store of the i-th product. */
  predicate BothFail(tlsOk: bool, s: Session, rows: seq<seq<Attempt>>, i: nat, j: nat) {
    i < |rows| && j < |rows[i]| && (!tlsOk || Used(RowsSession(s, rows[..i]), rows[i], j).None?)
  }

  /** `out` has one telling offer for each purchasable store result, by product, store and result. */
  ghost predicate OffersAre(tlsOk: bool, s: Session, products: seq<string>, stores: seq<Place>,
                            rows: seq<seq<Attempt>>, out: seq<Offer>, pos: seq<Spot>)
    requires Shaped(products, stores, rows)
  {
    && |pos| == |out|
    && (forall m :: 0 <= m < |pos| ==>
          && IsSpot(tlsOk, s, rows, pos[m])
          && Tells(out[m], products[pos[m].i], stores[pos[m].j], ResultAt(tlsOk, s, rows, pos[m])))
    && (forall m, l :: 0 <= m < l < |pos| ==> Before(pos[m], pos[l]))
    && (forall y :: IsSpot(tlsOk, s, rows, y) ==> y in pos)
  }

  ghost predicate SomeFail(tlsOk: bool, s: Session, rows: seq<seq<Attempt>>) {
    exists i: nat, j: nat :: BothFail(tlsOk, s, rows, i, j)
  }

  /** An error exactly when nothing is found and some pair failed twice; otherwise all offers, in order. */
  ghost predicate Answers(tlsOk: bool, s: Session, products: seq<string>, stores: seq<Place>,
                          rows: seq<seq<Attempt>>, r: Option<seq<Offer>>)
    requires Shaped(products, stores, rows)
  {
    && (r.None? <==> (forall y :: !IsSpot(tlsOk, s, rows, y)) && SomeFail(tlsOk, s, rows))
    && (r.Some? ==> exists pos :: OffersAre(tlsOk, s, products, stores, rows, r.value, pos))
  }

  lemma PrefixSpots(tlsOk: bool, s: Session, rows: seq<seq<Attempt>>, n: nat)
    requires n + 1 == |rows|
    ensures forall y: Spot :: y.i < n ==> (IsSpot(tlsOk, s, rows[..n], y) <==> IsSpot(tlsOk, s, rows, y))
    ensures forall y: Spot :: y.i < n && IsSpot(tlsOk, s, rows, y) ==>
              ResultAt(tlsOk, s, rows[..n], y) == ResultAt(tlsOk, s, rows, y)
    ensures forall i: nat, j: nat :: i < n ==> (BothFail(tlsOk, s, rows[..n], i, j) <==> BothFail(tlsOk, s, rows, i, j))
  {
    assert forall i :: 0 <= i < n ==> rows[..n][..i] == rows[..i] && rows[..n][i] == rows[i];
  }

  lemma RowsMore(s: Session, products: seq<string>, stores: seq<Place>, rows: seq<seq<Attempt>>, n: nat,
                 a: seq<Offer>, x: seq<Spot>, b: seq<Offer>, y: seq<Spot>)
    requires Shaped(products, stores, rows) && n + 1 == |rows|
    requires OffersAre(true, s, products[..n], stores, rows[..n], a, x)
    requires RowAnswer(RowsSession(s, rows[..n]), products[n], stores, rows[n], n, 0, |stores|, b, y)
    ensures OffersAre(true, s, products, stores, rows, a + b, x + y)
  {
    PrefixSpots(true, s, rows, n);
    forall m | 0 <= m < |x + y|
      ensures IsSpot(true, s, rows, (x + y)[m])
      ensures Tells((a + b)[m], products[(x + y)[m].i], stores[(x + y)[m].j], ResultAt(true, s, rows, (x + y)[m]))
    {
      if m < |x| {
        assert IsSpot(true, s, rows[..n], x[m]);
      } else {
        assert TellsSpot(RowsSession(s, rows[..n]), products[n], stores, rows[n], n, 0, |stores|,
                         b[m - |x|], y[m - |x|]);
      }
    }
    forall m, l | 0 <= m < l < |x + y| ensures Before((x + y)[m], (x + y)[l]) {
      if m < |x| <= l {
        assert IsSpot(true, s, rows[..n], x[m]);
      }
    }
    forall z | IsSpot(true, s, rows, z) ensures z in x + y {
      if z.i < n {
        assert z in x;
      } else {
        assert z == Spot(n, z.j, z.x) && z in y;
      }
    }
  }

  lemma {:induction false} AllAnswers(p: Progress, products: seq<string>, stores: seq<Place>, rows: seq<seq<Attempt>>)
    returns (more: seq<Offer>, pos: seq<Spot>)
    requires Shaped(products, stores, rows)
    ensures var end := VisitAll(p, true, products, stores, rows);
            && end.session == RowsSession(p.session, rows) && end.out == p.out + more
            && end.failed >= p.failed && (end.failed > p.failed <==> SomeFail(true, p.session, rows))
    ensures OffersAre(true, p.session, products, stores, rows, more, pos)
  {
    if products == [] {
      more, pos := [], [];
      assert p.out + [] == p.out;
    } else {
      var n := |products| - 1;
      var front, x := AllAnswers(p, products[..n], stores, rows[..n]);
      var mid := VisitAll(p, true, products[..n], stores, rows[..n]);
      var b, y := RowAnswers(mid, products[n], stores, rows[n], n);
      RowsMore(p.session, products, stores, rows, n, front, x, b, y);
      FailMore(p.session, rows, n);
      more, pos := front + b, x + y;
      Regroup(p.out, front, b);
    }
  }

  lemma FailMore(s: Session, rows: seq<seq<Attempt>>, n: nat)
    requires n + 1 == |rows|
    ensures SomeFail(true, s, rows) <==>
            SomeFail(true, s, rows[..n])
            || RowFails(RowsSession(s, rows[..n]), rows[n])
  {
    PrefixSpots(true, s, rows, n);
    if i: nat, j: nat :| BothFail(true, s, rows[..n], i, j) {
      assert BothFail(true, s, rows, i, j);
    }
    if j: nat :| FailsAt(RowsSession(s, rows[..n]), rows[n], j) {
      assert BothFail(true, s, rows, n, j);
    }
    if i: nat, j: nat :| BothFail(true, s, rows, i, j) {
      if i < n {
        assert BothFail(true, s, rows[..n], i, j);
        assert SomeFail(true, s, rows[..n]);
      } else {
        assert FailsAt(RowsSession(s, rows[..n]), rows[n], j);
      }
    }
  }

  /** Without a TLS client every pair fails, and nothing is found. */
  lemma {:induction false} NoClientRow(p: Progress, productID: string, stores: seq<Place>, row: seq<Attempt>)
    requires |row| == |stores|
    ensures var end := VisitStores(p, false, productID, stores, row);
            end.session == p.session && end.out == p.out && end.failed == p.failed + |stores|
  {
    if stores == [] {
    } else {
      NoClientRow(p, productID, stores[..|stores| - 1], row[..|stores| - 1]);
    }
  }

  lemma {:induction false} NoClient(p: Progress, products: seq<string>, stores: seq<Place>, rows: seq<seq<Attempt>>)
    requires Shaped(products, stores, rows)
    ensures var end := VisitAll(p, false, products, stores, rows);
            && end.out == p.out && end.failed >= p.failed
            && (end.failed > p.failed <==> SomeFail(false, p.session, rows))
  {
    if products == [] {
    } else {
      var n := |products| - 1;
      NoClient(p, products[..n], stores, rows[..n]);
      NoClientRow(VisitAll(p, false, products[..n], stores, rows[..n]), products[n], stores, rows[n]);
      PrefixSpots(false, p.session, rows, n);
      if i: nat, j: nat :| BothFail(false, p.session, rows[..n], i, j) {
        assert BothFail(false, p.session, rows, i, j);
      }
      if |stores| > 0 {
        assert BothFail(false, p.session, rows, n, 0);
      }
      if i: nat, j: nat :| BothFail(false, p.session, rows, i, j) {
        assert i < n ==> BothFail(false, p.session, rows[..n], i, j);
      }
    }
  }

  /** A check answers as the replies that count demand, whatever session it starts with. */
  lemma CheckAnswers(p: Progress, tlsOk: bool, products: seq<string>, stores: seq<Place>, rows: seq<seq<Attempt>>)
    requires Shaped(products, stores, rows) && p.out == [] && p.failed == 0
    ensures var end := VisitAll(p, tlsOk, products, stores, rows);
            Answers(tlsOk, p.session, products, stores, rows,
                    if end.out == [] && end.failed > 0 then None else Some(end.out))
  {
    if tlsOk {
      WithClient(p, products, stores, rows);
    } else {
      NoClient(p, products, stores, rows);
      assert OffersAre(false, p.session, products, stores, rows, [], []);
    }
  }

  lemma WithClient(p: Progress, products: seq<string>, stores: seq<Place>, rows: seq<seq<Attempt>>)
    requires Shaped(products, stores, rows) && p.out == [] && p.failed == 0
    ensures var end := VisitAll(p, true, products, stores, rows);
            Answers(true, p.session, products, stores, rows,
                    if end.out == [] && end.failed > 0 then None else Some(end.out))
  {
    var more, pos := AllAnswers(p, products, stores, rows);
    assert [] + more == more;
    OffersAnswer(p.session, products, stores, rows, more, pos);
  }

  lemma OffersAnswer(s: Session, products: seq<string>, stores: seq<Place>, rows: seq<seq<Attempt>>,
                     out: seq<Offer>, pos: seq<Spot>)
    requires Shaped(products, stores, rows) && OffersAre(true, s, products, stores, rows, out, pos)
    ensures Answers(true, s, products, stores, rows, if out == [] && SomeFail(true, s, rows) then None else Some(out))
  {
    if out != [] {
      assert IsSpot(true, s, rows, pos[0]);
    } else {
      assert pos == [];
    }
  }

  class Source {
    const tlsOk: bool
    var cookie: string
    var userAgent: string
    var sessionAt: int
    /** Harvests asked for so far, and first queries that failed. */
    ghost var attempts: nat
    ghost var retries: nat

    constructor (tlsOk: bool)
      ensures this.tlsOk == tlsOk && Cached() == NONE && attempts == 0 && retries == 0
    {
      this.tlsOk := tlsOk;
      cookie, userAgent, sessionAt, attempts, retries := "", "", 0, 0, 0;
    }

    function Cached(): Session
      reads this
    {
      Session(cookie, userAgent, sessionAt)
    }

    method GetSession(force: bool, q: Call) returns (r: Option<(string, string)>)
      modifies this
      ensures r == Returned(old(Cached()), force, q)
      ensures Cached() == After(old(Cached()), force, q)
      ensures attempts == old(attempts) + (if Harvests(old(Cached()), force, q) then 1 else 0)
      ensures retries == old(retries)
    {
      if !force && cookie != "" && q.now - sessionAt < TTL {
        return Some((cookie, userAgent));
      }
      attempts := attempts + 1;
      if q.harvest.None? {
        return None;
      }
      cookie, userAgent, sessionAt := q.harvest.value.0, q.harvest.value.1, q.done;
      return q.harvest;
    }

    method Ask(force: bool, q: Call, reply: Option<seq<Result>>) returns (r: Option<seq<Result>>)
      modifies this
      ensures !tlsOk ==> r == None && Cached() == old(Cached()) && attempts == old(attempts)
      ensures tlsOk ==>
                && (Cached(), r) == Query(old(Cached()), force, q, reply)
                && attempts == old(attempts) + (if Harvests(old(Cached()), force, q) then 1 else 0)
      ensures retries == old(retries)
    {
      if !tlsOk {
        return None;
      }
      var session := GetSession(force, q);
      if session.None? {
        return None;
      }
      return reply;
    }

    method BuildOffers(productID: string, store: Place, rs: seq<Result>) returns (out: seq<Offer>)
      ensures out == Build(productID, store, rs)
    {
      out := [];
      for i := 0 to |rs|
        invariant out == Build(productID, store, rs[..i])
      {
        assert rs[..i + 1][..i] == rs[..i];
        if rs[i].kind != "STORE" || !rs[i].purchasable {
          continue;
        }
        out := out + [OfferOf(productID, store, rs[i])];
      }
      assert rs[..|rs|] == rs;
    }

    method VisitOne(productID: string, store: Place, a: Attempt, out: seq<Offer>, failed: nat)
      returns (out': seq<Offer>, failed': nat)
      modifies this
      ensures Progress(Cached(), out', failed', attempts, retries) ==
              Visit(Progress(old(Cached()), out, failed, old(attempts), old(retries)), tlsOk, productID, store, a)
    {
      out', failed' := out, failed;
      var pr := Ask(false, a.first, a.reply);
      if pr.None? {
        retries := retries + 1;
        pr := Ask(true, a.second, a.retryReply);
        if pr.None? {
          failed' := failed + 1;
          return;
        }
      }
      var more := BuildOffers(productID, store, pr.value);
      out' := out + more;
    }

    /** Every product at every store; None is an error: nothing found, and something failed. */
    method Check(products: seq<string>, stores: seq<Place>, rows: seq<seq<Attempt>>) returns (r: Option<seq<Offer>>)
      requires Shaped(products, stores, rows)
      modifies this
      ensures var p := VisitAll(Progress(old(Cached()), [], 0, old(attempts), old(retries)), tlsOk, products, stores,
                                rows);
              && Cached() == p.session && attempts == p.attempts && retries == p.retries
              && r == (if p.out == [] && p.failed > 0 then None else Some(p.out))
      ensures Answers(tlsOk, old(Cached()), products, stores, rows, r)
    {
      var out: seq<Offer>, failed: nat := [], 0;
      ghost var start := Progress(Cached(), out, failed, attempts, retries);
      for i := 0 to |products|
        invariant Progress(Cached(), out, failed, attempts, retries) ==
                  VisitAll(start, tlsOk, products[..i], stores, rows[..i])
      {
        assert products[..i + 1][..i] == products[..i] && rows[..i + 1][..i] == rows[..i];
        ghost var mid := Progress(Cached(), out, failed, attempts, retries);
        for j := 0 to |stores|
          invariant Progress(Cached(), out, failed, attempts, retries) ==
                    VisitStores(mid, tlsOk, products[i], stores[..j], rows[i][..j])
        {
          assert stores[..j + 1][..j] == stores[..j] && rows[i][..j + 1][..j] == rows[i][..j];
          out, failed := VisitOne(products[i], stores[j], rows[i][j], out, failed);
        }
        assert stores[..|stores|] == stores && rows[i][..|stores|] == rows[i];
      }
      assert products[..|products|] == products && rows[..|products|] == rows;
      CheckAnswers(start, tlsOk, products, stores, rows);
      return if out == [] && failed > 0 then None else Some(out);
    }
  }

  // ----- how often a check harvests

  lemma {:induction false} StoresHarvestTwice(p: Progress, tlsOk: bool, productID: string, stores: seq<Place>,
                                              row: seq<Attempt>)
    requires |row| == |stores|
    ensures VisitStores(p, tlsOk, productID, stores, row).attempts <= p.attempts + 2 * |stores|
  {
    if stores == [] {
    } else {
      var n := |stores| - 1;
      StoresHarvestTwice(p, tlsOk, productID, stores[..n], row[..n]);
    }
  }

  /** At most two harvests per product and store, whatever happens. */
  lemma {:induction false} AtMostTwoEach(p: Progress, tlsOk: bool, products: seq<string>, stores: seq<Place>,
                                         rows: seq<seq<Attempt>>)
    requires Shaped(products, stores, rows)
    ensures VisitAll(p, tlsOk, products, stores, rows).attempts <= p.attempts + 2 * (|products| * |stores|)
  {
    if products == [] {
    } else {
      var n := |products| - 1;
      AtMostTwoEach(p, tlsOk, products[..n], stores, rows[..n]);
      StoresHarvestTwice(VisitAll(p, tlsOk, products[..n], stores, rows[..n]), tlsOk, products[n], stores, rows[n]);
      assert |products| * |stores| == n * |stores| + |stores|;
    }
  }

  /** Both harvests this attempt may make bring a cookie. */
  predicate Brings(a: Attempt) {
    && a.first.harvest.Some? && a.first.harvest.value.0 != ""
    && a.second.harvest.Some? && a.second.harvest.value.0 != ""
  }

  /** This visit's first query does not find a session of this check, harvested since `start`, expired. */
  predicate Alive(start: Progress, p: Progress, a: Attempt) {
    p.attempts > start.attempts ==> a.first.now - p.session.at < 15 * 60
  }

  /** Harvests bring cookies and no visit finds a session of this check expired. */
  predicate StoresAlive(start: Progress, p: Progress, tlsOk: bool, productID: string, stores: seq<Place>,
                        row: seq<Attempt>)
    requires |row| == |stores|
  {
    stores == [] ||
    (var n := |stores| - 1;
     && StoresAlive(start, p, tlsOk, productID, stores[..n], row[..n])
     && Brings(row[n]) && Alive(start, VisitStores(p, tlsOk, productID, stores[..n], row[..n]), row[n]))
  }

  ghost predicate AllAlive(start: Progress, p: Progress, tlsOk: bool, products: seq<string>, stores: seq<Place>,
                           rows: seq<seq<Attempt>>)
    requires Shaped(products, stores, rows)
  {
    products == [] ||
    (var n := |products| - 1;
     && AllAlive(start, p, tlsOk, products[..n], stores, rows[..n])
     && StoresAlive(start, VisitAll(p, tlsOk, products[..n], stores, rows[..n]), tlsOk, products[n], stores, rows[n]))
  }

  /** Harvests made since the start; once there is one, there is a session. */
  predicate Thrifty(start: Progress, p: Progress) {
    && p.attempts >= start.attempts && p.retries >= start.retries
    && p.attempts - start.attempts <= 1 + (p.retries - start.retries)
    && (p.attempts > start.attempts ==> p.session.cookie != "")
  }

  lemma VisitIsThrifty(start: Progress, p: Progress, tlsOk: bool, productID: string, store: Place, a: Attempt)
    requires Thrifty(start, p) && Brings(a) && Alive(start, p, a)
    ensures Thrifty(start, Visit(p, tlsOk, productID, store, a))
  {
  }

  lemma {:induction false} StoresAreThrifty(start: Progress, p: Progress, tlsOk: bool, productID: string,
                                            stores: seq<Place>, row: seq<Attempt>)
    requires |row| == |stores| && Thrifty(start, p) && StoresAlive(start, p, tlsOk, productID, stores, row)
    ensures Thrifty(start, VisitStores(p, tlsOk, productID, stores, row))
  {
    if stores == [] {
    } else {
      var n := |stores| - 1;
      StoresAreThrifty(start, p, tlsOk, productID, stores[..n], row[..n]);
      VisitIsThrifty(start, VisitStores(p, tlsOk, productID, stores[..n], row[..n]), tlsOk, productID, stores[n],
                     row[n]);
    }
  }

  /**
   When every harvest brings a cookie and no first query finds a session harvested
   in this check expired, however long the check takes, it harvests at most once
   more than first queries fail, whatever was cached before.
   */
  lemma {:induction false} OneHarvestPlusRetries(p: Progress, tlsOk: bool, products: seq<string>, stores: seq<Place>,
                                                 rows: seq<seq<Attempt>>)
    requires Shaped(products, stores, rows) && AllAlive(p, p, tlsOk, products, stores, rows)
    ensures var end := VisitAll(p, tlsOk, products, stores, rows);
            Thrifty(p, end) && end.attempts - p.attempts <= 1 + (end.retries - p.retries)
  {
    if products == [] {
    } else {
      var n := |products| - 1;
      OneHarvestPlusRetries(p, tlsOk, products[..n], stores, rows[..n]);
      StoresAreThrifty(p, VisitAll(p, tlsOk, products[..n], stores, rows[..n]), tlsOk, products[n], stores, rows[n]);
    }
  }
}
