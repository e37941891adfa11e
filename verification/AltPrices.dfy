/** A price in every currency that one or two rates lead to. */
module AltPrices {
  import opened Options
  import opened Exchange

  /** b can be had for a with one rate. */
  ghost predicate OneHop(rates: seq<TickerRate>, a: Currency, b: Currency) {
    a != b && exists i :: 0 <= i < |rates| && Leads(rates[i], a, b)
  }

  /** b can be had for a with two rates, by way of another currency. */
  ghost predicate TwoHops(rates: seq<TickerRate>, a: Currency, b: Currency) {
    a != b && exists c, i :: OneHop(rates, a, c) && 0 <= i < |rates| && Leads(rates[i], c, b)
  }

  predicate Leads(r: TickerRate, a: Currency, b: Currency) {
    r.CanConvert(a) && r.Other(a) == b
  }

  /** Rate i is the first one from a to b. */
  ghost predicate FirstRate(rates: seq<TickerRate>, i: int, a: Currency, b: Currency) {
    0 <= i < |rates| && Leads(rates[i], a, b) && forall j :: 0 <= j < i ==> !Leads(rates[j], a, b)
  }

  /** The first price in a currency. */
  function Lookup(ps: seq<Amount>, b: Currency): Option<Amount> {
    if ps == [] then None
    else
      match Lookup(ps[..|ps| - 1], b)
      case Some(p) => Some(p)
      case None => if ps[|ps| - 1].currency == b then Some(ps[|ps| - 1]) else None
  }

  lemma {:induction false} LookupIsFirst(ps: seq<Amount>, b: Currency)
    ensures Lookup(ps, b).Some? <==> exists p :: p in ps && p.currency == b
    ensures Lookup(ps, b).Some? ==> Lookup(ps, b).value in ps && Lookup(ps, b).value.currency == b
  {
    if ps != [] {
      var init, last := ps[..|ps| - 1], ps[|ps| - 1];
      LookupIsFirst(init, b);
      assert forall p :: p in ps <==> p in init || p == last;
    }
  }

  lemma {:induction false} LookupAppend(ps: seq<Amount>, qs: seq<Amount>, b: Currency)
    ensures Lookup(ps + qs, b) == (if Lookup(ps, b).Some? then Lookup(ps, b) else Lookup(qs, b))
    decreases |qs|
  {
    if qs == [] {
      assert ps + qs == ps;
    } else {
      assert (ps + qs)[..|ps + qs| - 1] == ps + qs[..|qs| - 1];
      LookupAppend(ps, qs[..|qs| - 1], b);
    }
  }

  /** One conversion, unless it does not apply or leads back to the source currency. */
  function Priced(r: TickerRate, from: Amount, source: Currency): seq<Amount> {
    var c := Convert(r, from);
    if c.Some? && c.value.currency != source then [c.value] else []
  }

  lemma LookupPriced(r: TickerRate, from: Amount, source: Currency, b: Currency)
    requires b != source
    ensures Lookup(Priced(r, from, source), b) == if Leads(r, from.currency, b) then Convert(r, from) else None
  {
    var c := Convert(r, from);
    if c.Some? && c.value.currency != source { LookupAppend([], [c.value], b); assert [] + [c.value] == [c.value]; }
  }

  function Direct(rates: seq<TickerRate>, source: Amount): seq<Amount> {
    if rates == [] then []
    else Direct(rates[..|rates| - 1], source) + Priced(rates[|rates| - 1], source, source.currency)
  }

  /** One rate applied to each of the direct prices. */
  function CrossRow(r: TickerRate, ps: seq<Amount>, source: Currency): seq<Amount> {
    if ps == [] then [] else CrossRow(r, ps[..|ps| - 1], source) + Priced(r, ps[|ps| - 1], source)
  }

  function Cross(rates: seq<TickerRate>, ps: seq<Amount>, source: Currency): seq<Amount> {
    if rates == [] then [] else Cross(rates[..|rates| - 1], ps, source) + CrossRow(rates[|rates| - 1], ps, source)
  }

  /** The first price per currency, in order. */
  function Deduped(ps: seq<Amount>): seq<Amount> {
    if ps == [] then []
    else
      var before, last := Deduped(ps[..|ps| - 1]), ps[|ps| - 1];
      if Lookup(before, last.currency).Some? then before else before + [last]
  }

  function Prices(rates: seq<TickerRate>, source: Amount): seq<Amount> {
    Deduped(Direct(rates, source) + Cross(rates, Direct(rates, source), source.currency))
  }

  // ----- what the parts contain -----

  lemma DirectSnoc(rates: seq<TickerRate>, source: Amount, b: Currency)
    requires b != source.currency && rates != []
    ensures var n := |rates| - 1;
            Lookup(Direct(rates, source), b) ==
            if Lookup(Direct(rates[..n], source), b).Some? then Lookup(Direct(rates[..n], source), b)
            else if Leads(rates[n], source.currency, b) then Convert(rates[n], source) else None
  {
    var n := |rates| - 1;
    LookupPriced(rates[n], source, source.currency, b);
    LookupAppend(Direct(rates[..n], source), Priced(rates[n], source, source.currency), b);
  }

  lemma {:induction false} DirectReach(rates: seq<TickerRate>, source: Amount, b: Currency)
    requires b != source.currency
    ensures Lookup(Direct(rates, source), b).Some? <==> OneHop(rates, source.currency, b)
    decreases |rates|
  {
    if rates != [] {
      DirectReach(rates[..|rates| - 1], source, b);
      DirectSnoc(rates, source, b);
      HopSnoc(rates, source.currency, b);
    }
  }

  /** The direct price in b is the one by the first rate that leads there. */
  lemma {:induction false} DirectFirst(rates: seq<TickerRate>, source: Amount, b: Currency, i: int)
    requires b != source.currency && FirstRate(rates, i, source.currency, b)
    ensures Lookup(Direct(rates, source), b) == Convert(rates[i], source)
    decreases |rates|
  {
    var n := |rates| - 1;
    FirstRateInit(rates, i, source.currency, b);
    DirectSnoc(rates, source, b);
    if i < n {
      DirectFirst(rates[..n], source, b, i);
    } else {
      DirectReach(rates[..n], source, b);
    }
  }

  lemma FirstRateInit(rates: seq<TickerRate>, i: int, a: Currency, b: Currency)
    requires a != b && FirstRate(rates, i, a, b)
    ensures var init := rates[..|rates| - 1];
            if i < |rates| - 1 then FirstRate(init, i, a, b) && init[i] == rates[i] else !OneHop(init, a, b)
  {
    var init := rates[..|rates| - 1];
    assert forall j :: 0 <= j < |init| ==> init[j] == rates[j];
  }

  lemma HopSnoc(rates: seq<TickerRate>, a: Currency, b: Currency)
    requires rates != [] && a != b
    ensures OneHop(rates, a, b) <==> OneHop(rates[..|rates| - 1], a, b) || Leads(rates[|rates| - 1], a, b)
  {
    var n := |rates| - 1;
    assert forall i :: 0 <= i < n ==> rates[..n][i] == rates[i];
    if OneHop(rates[..n], a, b) {
      var i :| 0 <= i < n && Leads(rates[..n][i], a, b);
      assert Leads(rates[i], a, b);
    }
  }

  /** Nothing is priced in the source currency. */
  lemma {:induction false} DirectLeavesSource(rates: seq<TickerRate>, source: Amount)
    ensures forall p :: p in Direct(rates, source) ==> p.currency != source.currency
    decreases |rates|
  {
    if rates != [] { DirectLeavesSource(rates[..|rates| - 1], source); }
  }

  /** Some price of the list leads on to b with rate r; and with some rate. */
  ghost predicate RowReaches(r: TickerRate, ps: seq<Amount>, b: Currency) {
    exists p :: p in ps && Leads(r, p.currency, b)
  }

  ghost predicate Reaches(rates: seq<TickerRate>, ps: seq<Amount>, b: Currency) {
    exists i :: 0 <= i < |rates| && RowReaches(rates[i], ps, b)
  }

  lemma ReachesSnoc(rates: seq<TickerRate>, ps: seq<Amount>, b: Currency)
    requires rates != []
    ensures Reaches(rates, ps, b) <==> Reaches(rates[..|rates| - 1], ps, b) || RowReaches(rates[|rates| - 1], ps, b)
  {
    var n := |rates| - 1;
    assert forall i :: 0 <= i < n ==> rates[..n][i] == rates[i];
    if Reaches(rates[..n], ps, b) {
      var i :| 0 <= i < n && RowReaches(rates[..n][i], ps, b);
      assert RowReaches(rates[i], ps, b);
    }
  }

  lemma {:induction false} CrossRowReach(r: TickerRate, ps: seq<Amount>, source: Currency, b: Currency)
    requires b != source
    ensures Lookup(CrossRow(r, ps, source), b).Some? <==> RowReaches(r, ps, b)
    decreases |ps|
  {
    if ps != [] {
      var init, last := ps[..|ps| - 1], ps[|ps| - 1];
      CrossRowReach(r, init, source, b);
      LookupPriced(r, last, source, b);
      LookupAppend(CrossRow(r, init, source), Priced(r, last, source), b);
      assert forall p :: p in ps <==> p in init || p == last;
    }
  }

  lemma {:induction false} CrossReach(rates: seq<TickerRate>, ps: seq<Amount>, source: Currency, b: Currency)
    requires b != source
    ensures Lookup(Cross(rates, ps, source), b).Some? <==> Reaches(rates, ps, b)
    decreases |rates|
  {
    if rates != [] {
      var n := |rates| - 1;
      CrossReach(rates[..n], ps, source, b);
      CrossRowReach(rates[n], ps, source, b);
      LookupAppend(Cross(rates[..n], ps, source), CrossRow(rates[n], ps, source), b);
      ReachesSnoc(rates, ps, b);
    }
  }

  lemma {:induction false} CrossRowOrigin(r: TickerRate, ps: seq<Amount>, source: Currency, q: Amount)
    requires q in CrossRow(r, ps, source)
    ensures q.currency != source && exists p :: p in ps && Convert(r, p) == Some(q)
    decreases |ps|
  {
    var init := ps[..|ps| - 1];
    if q in CrossRow(r, init, source) {
      CrossRowOrigin(r, init, source, q);
      var p :| p in init && Convert(r, p) == Some(q);
      assert p in ps;
    }
  }

  /** A cross price is one of the direct prices, converted once more. */
  lemma {:induction false} CrossOrigin(rates: seq<TickerRate>, ps: seq<Amount>, source: Currency, q: Amount)
    requires q in Cross(rates, ps, source)
    ensures q.currency != source && exists p, i :: p in ps && 0 <= i < |rates| && Convert(rates[i], p) == Some(q)
    decreases |rates|
  {
    var n := |rates| - 1;
    if q in Cross(rates[..n], ps, source) {
      CrossOrigin(rates[..n], ps, source, q);
      var p, i :| p in ps && 0 <= i < n && Convert(rates[..n][i], p) == Some(q);
      assert rates[..n][i] == rates[i];
    } else {
      CrossRowOrigin(rates[n], ps, source, q);
    }
  }

  ghost predicate OnePerCurrency(ps: seq<Amount>) {
    forall i, j :: 0 <= i < j < |ps| ==> ps[i].currency != ps[j].currency
  }

  lemma {:induction false} DedupedLookup(ps: seq<Amount>)
    ensures OnePerCurrency(Deduped(ps))
    ensures forall b :: Lookup(Deduped(ps), b) == Lookup(ps, b)
    ensures forall p :: p in Deduped(ps) ==> p in ps
    decreases |ps|
  {
    if ps != [] {
      var init, last := ps[..|ps| - 1], ps[|ps| - 1];
      DedupedLookup(init);
      LookupIsFirst(Deduped(init), last.currency);
      forall b ensures Lookup(Deduped(ps), b) == Lookup(ps, b) {
        LookupAppend(Deduped(init), [last], b);
        LookupAppend(init, [last], b);
        assert init + [last] == ps;
      }
    }
  }

  /**
   * The list has exactly one price for every currency that one or two rates lead to and none for
   * any other, and a direct rate wins: the first one that leads there.
   */
  lemma PricesReach(rates: seq<TickerRate>, source: Amount, b: Currency)
    ensures OnePerCurrency(Prices(rates, source))
    ensures Lookup(Prices(rates, source), b).Some?
       <==> OneHop(rates, source.currency, b) || TwoHops(rates, source.currency, b)
    ensures b != source.currency ==>
              forall i :: FirstRate(rates, i, source.currency, b) ==>
                Lookup(Prices(rates, source), b) == Convert(rates[i], source)
  {
    var direct := Direct(rates, source);
    var cross := Cross(rates, direct, source.currency);
    DedupedLookup(direct + cross);
    DirectLeavesSource(rates, source);
    if b == source.currency {
      CrossLeavesSource(rates, direct, source.currency);
      LookupIsFirst(direct + cross, b);
    } else {
      LookupAppend(direct, cross, b);
      DirectReach(rates, source, b);
      CrossReach(rates, direct, source.currency, b);
      HopsThroughDirect(rates, source, b);
      forall i | FirstRate(rates, i, source.currency, b)
        ensures Lookup(Prices(rates, source), b) == Convert(rates[i], source)
      {
        DirectFirst(rates, source, b, i);
      }
    }
  }

  lemma CrossLeavesSource(rates: seq<TickerRate>, ps: seq<Amount>, source: Currency)
    ensures forall q :: q in Cross(rates, ps, source) ==> q.currency != source
  {
    forall q | q in Cross(rates, ps, source) ensures q.currency != source {
      CrossOrigin(rates, ps, source, q);
    }
  }

  lemma HopsThroughDirect(rates: seq<TickerRate>, source: Amount, b: Currency)
    requires b != source.currency
    ensures Reaches(rates, Direct(rates, source), b) <==> TwoHops(rates, source.currency, b)
  {
    var direct := Direct(rates, source);
    DirectLeavesSource(rates, source);
    if Reaches(rates, direct, b) {
      var i :| 0 <= i < |rates| && RowReaches(rates[i], direct, b);
      var p :| p in direct && Leads(rates[i], p.currency, b);
      DirectReach(rates, source, p.currency);
      LookupIsFirst(direct, p.currency);
      assert OneHop(rates, source.currency, p.currency);
    }
    if TwoHops(rates, source.currency, b) {
      var c, i :| OneHop(rates, source.currency, c) && 0 <= i < |rates| && Leads(rates[i], c, b);
      DirectReach(rates, source, c);
      LookupIsFirst(direct, c);
      var p :| p in direct && p.currency == c;
      assert RowReaches(rates[i], direct, b);
    }
  }

  // ----- which of several routes a cross price takes -----

  /** A rate leads to b from one other currency only. */
  lemma OneWayIn(r: TickerRate, c: Currency, d: Currency, b: Currency)
    requires Leads(r, c, b) && Leads(r, d, b) && c != b && d != b
    ensures c == d
  {
  }

  /** With nothing priced in b yet, a rate from c to b takes the first price in c. */
  lemma {:induction false} CrossRowPrice(r: TickerRate, ps: seq<Amount>, source: Currency, b: Currency, c: Currency)
    requires b != source && c != b && Leads(r, c, b) && Lookup(ps, b).None?
    ensures Lookup(CrossRow(r, ps, source), b) == if Lookup(ps, c).Some? then Convert(r, Lookup(ps, c).value) else None
    decreases |ps|
  {
    if ps != [] {
      var init, last := ps[..|ps| - 1], ps[|ps| - 1];
      assert ps == init + [last];
      LookupAppend(init, [last], b);
      CrossRowPrice(r, init, source, b, c);
      LookupPriced(r, last, source, b);
      LookupAppend(CrossRow(r, init, source), Priced(r, last, source), b);
      LookupIsFirst(ps, b);
      LookupIsFirst(init, c);
      if Leads(r, last.currency, b) { OneWayIn(r, last.currency, c, b); }
    }
  }

  /** Rate i is the first that leads from a price of the list to b. */
  ghost predicate FirstOnward(rates: seq<TickerRate>, i: int, ps: seq<Amount>, b: Currency) {
    0 <= i < |rates| && RowReaches(rates[i], ps, b) && forall j :: 0 <= j < i ==> !RowReaches(rates[j], ps, b)
  }

  lemma {:induction false} CrossPrice(rates: seq<TickerRate>, i: int, ps: seq<Amount>, source: Currency, b: Currency,
                                      c: Currency)
    requires b != source && c != b && Lookup(ps, b).None? && FirstOnward(rates, i, ps, b)
    requires Leads(rates[i], c, b) && Lookup(ps, c).Some?
    ensures Lookup(Cross(rates, ps, source), b) == Convert(rates[i], Lookup(ps, c).value)
    decreases |rates|
  {
    var n := |rates| - 1;
    var init := rates[..n];
    OnwardInit(rates, i, ps, b);
    LookupAppend(Cross(init, ps, source), CrossRow(rates[n], ps, source), b);
    CrossReach(init, ps, source, b);
    if i < n {
      CrossPrice(init, i, ps, source, b, c);
      assert Reaches(init, ps, b);
    } else {
      CrossRowPrice(rates[n], ps, source, b, c);
    }
  }

  lemma OnwardInit(rates: seq<TickerRate>, i: int, ps: seq<Amount>, b: Currency)
    requires FirstOnward(rates, i, ps, b)
    ensures var init := rates[..|rates| - 1];
            if i < |rates| - 1 then FirstOnward(init, i, ps, b) && init[i] == rates[i] else !Reaches(init, ps, b)
  {
    var init := rates[..|rates| - 1];
    assert forall j :: 0 <= j < |init| ==> init[j] == rates[j];
  }

  /** No earlier rate than i leads from a currency one rate away to b. */
  ghost predicate FirstOnwardRate(rates: seq<TickerRate>, i: int, a: Currency, b: Currency) {
    0 <= i < |rates| && forall j, d :: 0 <= j < i && OneHop(rates, a, d) ==> !Leads(rates[j], d, b)
  }

  /**
   * A price two rates away: over the first rate that leads on to it from a currency one rate away, and
   * to that currency over the first rate there.
   */
  lemma TwoHopPrice(rates: seq<TickerRate>, source: Amount, b: Currency, i: int, c: Currency, j: int)
    requires b != source.currency && !OneHop(rates, source.currency, b)
    requires FirstOnwardRate(rates, i, source.currency, b) && Leads(rates[i], c, b)
    requires c != source.currency && FirstRate(rates, j, source.currency, c)
    ensures Convert(rates[j], source).Some?
    ensures Lookup(Prices(rates, source), b) == Convert(rates[i], Convert(rates[j], source).value)
  {
    var direct := Direct(rates, source);
    DirectFirst(rates, source, c, j);
    DirectReach(rates, source, b);
    DirectReach(rates, source, c);
    DedupedLookup(direct + Cross(rates, direct, source.currency));
    LookupAppend(direct, Cross(rates, direct, source.currency), b);
    OnwardFromDirect(rates, source, b, i, c);
    CrossPrice(rates, i, direct, source.currency, b, c);
  }

  lemma OnwardFromDirect(rates: seq<TickerRate>, source: Amount, b: Currency, i: int, c: Currency)
    requires FirstOnwardRate(rates, i, source.currency, b) && Leads(rates[i], c, b)
    requires Lookup(Direct(rates, source), c).Some?
    ensures FirstOnward(rates, i, Direct(rates, source), b)
  {
    var direct := Direct(rates, source);
    LookupIsFirst(direct, c);
    assert RowReaches(rates[i], direct, b);
    DirectLeavesSource(rates, source);
    forall k | 0 <= k < i ensures !RowReaches(rates[k], direct, b) {
      forall p | p in direct ensures !Leads(rates[k], p.currency, b) {
        LookupIsFirst(direct, p.currency);
        DirectReach(rates, source, p.currency);
      }
    }
  }

  // ----- the loops -----

  /** alt_prices */
  method ComputeAltPrices(rates: seq<TickerRate>, source: Amount) returns (ret: seq<Amount>)
    ensures ret == Prices(rates, source)
  {
    var direct: seq<Amount> := [];
    for i := 0 to |rates|
      invariant direct == Direct(rates[..i], source)
    {
      assert rates[..i + 1][..i] == rates[..i];
      direct := direct + Priced(rates[i], source, source.currency);
    }
    var cross: seq<Amount> := [];
    for i := 0 to |rates|
      invariant cross == Cross(rates[..i], direct, source.currency)
    {
      assert rates[..i + 1][..i] == rates[..i];
      var row := ComputeCrossRow(rates[i], direct, source.currency);
      cross := cross + row;
    }
    assert rates[..|rates|] == rates;
    ret := Dedupe(direct + cross);
  }

  method ComputeCrossRow(r: TickerRate, ps: seq<Amount>, source: Currency) returns (row: seq<Amount>)
    ensures row == CrossRow(r, ps, source)
  {
    row := [];
    for i := 0 to |ps|
      invariant row == CrossRow(r, ps[..i], source)
    {
      assert ps[..i + 1][..i] == ps[..i];
      row := row + Priced(r, ps[i], source);
    }
    assert ps[..|ps|] == ps;
  }

  /** Keep an amount when its currency was not seen before. */
  method Dedupe(ps: seq<Amount>) returns (ret: seq<Amount>)
    ensures ret == Deduped(ps)
  {
    var seen: set<Currency> := {};
    ret := [];
    for i := 0 to |ps|
      invariant ret == Deduped(ps[..i])
      invariant forall b :: b in seen <==> Lookup(ret, b).Some?
    {
      assert ps[..i + 1][..i] == ps[..i];
      if ps[i].currency !in seen {
        forall b ensures Lookup(ret + [ps[i]], b).Some? <==> b in seen + {ps[i].currency} {
          LookupAppend(ret, [ps[i]], b);
        }
        seen := seen + {ps[i].currency};
        ret := ret + [ps[i]];
      }
    }
    assert ps[..|ps|] == ps;
  }
}
