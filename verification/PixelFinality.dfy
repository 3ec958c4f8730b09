/** When a key's pixel credit survives a log that grows by clicks and pixels. */
module PixelFinality {
  import opened Outcomes
  import opened Seqs
  import opened PixelAttribution

  /** One of the pixel's eligible clicks has the key. */
  ghost predicate Credits(clicks: seq<Click>, p: Pixel, key: Key) {
    exists c :: c in Eligible(clicks, p) && c.Key() == key
  }

  /** Admitted between two watermarks, with a click of the key to credit. */
  ghost predicate Admits(clicks: seq<Click>, p: Pixel, w1: int, w2: int, key: Key) {
    w1 < p.receivedAt <= w2 && Credits(clicks, p, key)
  }

  /** What deduplication ensures of arriving clicks: their ids are new. */
  ghost predicate NewIds(clicks: seq<Click>, added: seq<Click>) {
    forall c, a :: c in clicks && a in added ==> a.clickId != c.clickId
  }

  // ---------------------------------------------------------------------------------------------
  // Arriving clicks.

  /** Arriving clicks change the pixel's eligible ones: the pixel names no click so far, and an arriving one is
      eligible, or is the one it names and so takes over from the clicks of its identity. */
  ghost predicate Reroutes(clicks: seq<Click>, added: seq<Click>, p: Pixel) {
    !NamesClick(clicks, p) && (Eligible(added, p) != [] || (NamesClick(added, p) && Eligible(clicks, p) != []))
  }

  lemma NamesGrown(clicks: seq<Click>, added: seq<Click>, p: Pixel)
    ensures NamesClick(clicks + added, p) <==> NamesClick(clicks, p) || NamesClick(added, p)
  {
    assert forall c :: c in clicks + added <==> c in clicks || c in added;
  }

  /** The eligible clicks of the grown log, from those of its parts. */
  lemma EligibleGrown(clicks: seq<Click>, added: seq<Click>, p: Pixel)
    requires NewIds(clicks, added)
    ensures Eligible(clicks + added, p) ==
      if NamesClick(clicks, p) then Eligible(clicks, p)
      else if NamesClick(added, p) then Eligible(added, p)
      else Eligible(clicks, p) + Eligible(added, p)
  {
    var may := (c: Click) => MayCredit(clicks + added, p, c);
    NamesGrown(clicks, added, p);
    FilterConcat(clicks, added, may);
    if NamesClick(clicks, p) {
      FilterSame(clicks, may, (c: Click) => MayCredit(clicks, p, c));
      FilterNone(added, may);
    } else if NamesClick(added, p) {
      FilterNone(clicks, may);
      FilterSame(added, may, (c: Click) => MayCredit(added, p, c));
    } else {
      FilterSame(clicks, may, (c: Click) => MayCredit(clicks, p, c));
      FilterSame(added, may, (c: Click) => MayCredit(added, p, c));
    }
  }

  lemma EligibleFrom(clicks: seq<Click>, p: Pixel)
    ensures forall c :: c in Eligible(clicks, p) <==> c in clicks && MayCredit(clicks, p, c)
  {
    FilterContains(clicks, (c: Click) => MayCredit(clicks, p, c));
  }

  /** `Reroutes` is exact: a caller can tell from the arriving clicks whether a pixel's eligible clicks change. */
  lemma ReroutesExactly(clicks: seq<Click>, added: seq<Click>, p: Pixel)
    requires NewIds(clicks, added)
    ensures Reroutes(clicks, added, p) <==> Eligible(clicks + added, p) != Eligible(clicks, p)
  {
    EligibleGrown(clicks, added, p);
    var old', new' := Eligible(clicks, p), Eligible(added, p);
    EligibleFrom(clicks, p);
    EligibleFrom(added, p);
    if new' != [] {
      assert new'[0] in new' && new'[0] in added;
      assert new'[0] !in old';
    }
  }

  /** The arriving clicks leave what the pixel credits to the key alone: they do not reroute it, or it credits the
      key neither before nor after. */
  ghost predicate Settled(clicks: seq<Click>, added: seq<Click>, p: Pixel, key: Key) {
    Reroutes(clicks, added, p) ==> !Credits(clicks, p, key) && !Credits(clicks + added, p, key)
  }

  lemma SettledCredit(decay: Decay, clicks: seq<Click>, added: seq<Click>, p: Pixel, watermark: int, key: Key)
    requires NewIds(clicks, added) && Settled(clicks, added, p, key)
    ensures CreditTo(decay, clicks + added, p, watermark, key) == CreditTo(decay, clicks, p, watermark, key)
    ensures Credits(clicks + added, p, key) <==> Credits(clicks, p, key)
  {
    if Reroutes(clicks, added, p) {
      CreditPositive(decay, clicks, p, watermark, key);
      CreditPositive(decay, clicks + added, p, watermark, key);
    } else {
      ReroutesExactly(clicks, added, p);
      SameEligibleSameCredit(decay, clicks, clicks + added, p, watermark, key);
    }
  }

  lemma SameEligibleSameCredit(decay: Decay, a: seq<Click>, b: seq<Click>, p: Pixel, watermark: int, key: Key)
    requires Eligible(a, p) == Eligible(b, p)
    ensures CreditTo(decay, a, p, watermark, key) == CreditTo(decay, b, p, watermark, key)
  {
    SumSame(Eligible(a, p), (c: Click) => if c.Key() == key then Share(decay, a, p, c) else 0.0,
            (c: Click) => if c.Key() == key then Share(decay, b, p, c) else 0.0);
  }

  // ---------------------------------------------------------------------------------------------
  // Arriving clicks and pixels.

  /** Under a fixed click log, a key's weight stays the same from one watermark to a later one exactly when no pixel
      with an eligible click of the key is admitted in between. */
  lemma WeightStable(decay: Decay, clicks: seq<Click>, pixels: seq<Pixel>, added: seq<Pixel>, w1: int, w2: int, key: Key)
    requires w1 <= w2 && forall p :: p in added ==> p.receivedAt > w1
    ensures WeightOf(decay, clicks, pixels + added, w2, key) >= WeightOf(decay, clicks, pixels, w1, key)
    ensures WeightOf(decay, clicks, pixels + added, w2, key) == WeightOf(decay, clicks, pixels, w1, key) <==>
      forall p :: p in pixels + added ==> !Admits(clicks, p, w1, w2, key)
  {
    var all := pixels + added;
    var before := (p: Pixel) => CreditTo(decay, clicks, p, w1, key);
    var after := (p: Pixel) => CreditTo(decay, clicks, p, w2, key);
    var gained := (p: Pixel) => if w1 < p.receivedAt then CreditTo(decay, clicks, p, w2, key) else 0.0;
    SumConcat(pixels, added, before);
    SumNonNegative(added, before);
    SumAdd(all, before, gained, after);
    forall p | p in all
      ensures gained(p) >= 0.0 && (gained(p) == 0.0 <==> !Admits(clicks, p, w1, w2, key))
    {
      CreditPositive(decay, clicks, p, w2, key);
    }
    SumNonNegative(all, gained);
  }

  /** Under any growth that settles the on-time pixels, the same. */
  lemma SettledWeight(decay: Decay, clicks: seq<Click>, newClicks: seq<Click>, pixels: seq<Pixel>, newPixels: seq<Pixel>,
                      w1: int, w2: int, key: Key)
    requires NewIds(clicks, newClicks) && w1 <= w2 && forall p :: p in newPixels ==> p.receivedAt > w1
    requires forall p :: p in pixels + newPixels && OnTime(p, w2) ==> Settled(clicks, newClicks, p, key)
    ensures WeightOf(decay, clicks + newClicks, pixels + newPixels, w2, key)
         == WeightOf(decay, clicks, pixels + newPixels, w2, key)
    ensures WeightOf(decay, clicks + newClicks, pixels + newPixels, w2, key) == WeightOf(decay, clicks, pixels, w1, key) <==>
      forall p :: p in pixels + newPixels ==> !Admits(clicks, p, w1, w2, key)
  {
    var all := pixels + newPixels;
    var before := (p: Pixel) => CreditTo(decay, clicks, p, w2, key);
    var after := (p: Pixel) => CreditTo(decay, clicks + newClicks, p, w2, key);
    forall p | p in all ensures after(p) == before(p) {
      if OnTime(p, w2) {
        SettledCredit(decay, clicks, newClicks, p, w2, key);
      }
    }
    SumSame(all, after, before);
    WeightStable(decay, clicks, pixels, newPixels, w1, w2, key);
  }

  /** A click can reach a pixel: the pixel names it, or shares its identity and merchant within the window. */
  predicate Reaches(c: Click, p: Pixel) {
    (p.clickId == Some(c.clickId) && c.clickId != "") ||
    (p.identity.Some? && c.identity == p.identity && c.merchantId == p.merchantId && InWindow(c, p))
  }

  /** A click that reaches no pixel settles it. */
  lemma UnreachedSettled(clicks: seq<Click>, added: seq<Click>, p: Pixel, key: Key)
    requires forall c :: c in added ==> !Reaches(c, p)
    ensures Settled(clicks, added, p, key)
  {
    FilterNone(added, (c: Click) => MayCredit(added, p, c));
  }

  /** A check on what arrives: no arriving click reaches a pixel that is on time, and no pixel admitted in between
      has a click of the key. Then the weight stays, however else the log grows. */
  lemma WeightKept(decay: Decay, clicks: seq<Click>, newClicks: seq<Click>, pixels: seq<Pixel>, newPixels: seq<Pixel>,
                   w1: int, w2: int, key: Key)
    requires NewIds(clicks, newClicks) && w1 <= w2 && forall p :: p in newPixels ==> p.receivedAt > w1
    requires forall c, p :: c in newClicks && p in pixels + newPixels && OnTime(p, w2) ==> !Reaches(c, p)
    requires forall p :: p in pixels + newPixels ==> !Admits(clicks, p, w1, w2, key)
    ensures WeightOf(decay, clicks + newClicks, pixels + newPixels, w2, key) == WeightOf(decay, clicks, pixels, w1, key)
  {
    forall p | p in pixels + newPixels && OnTime(p, w2) ensures Settled(clicks, newClicks, p, key) {
      UnreachedSettled(clicks, newClicks, p, key);
    }
    SettledWeight(decay, clicks, newClicks, pixels, newPixels, w1, w2, key);
  }

  // ---------------------------------------------------------------------------------------------
  // Clicks of other keys only take credit away.

  /** The decayed ages of the clicks of one key. */
  function OfKey(decay: Decay, p: Pixel, key: Key): Click -> real {
    (c: Click) => if c.Key() == key then Decayed(decay, p)(c) else 0.0
  }

  /** What a matched pixel credits to a key is the key's part of its clicks' decayed ages. */
  lemma CreditIsRatio(decay: Decay, clicks: seq<Click>, p: Pixel, watermark: int, key: Key)
    requires OnTime(p, watermark) && Eligible(clicks, p) != []
    ensures Sum(Eligible(clicks, p), Decayed(decay, p)) > 0.0
    ensures Sum(Eligible(clicks, p), Decayed(decay, p)) * CreditTo(decay, clicks, p, watermark, key)
         == Sum(Eligible(clicks, p), OfKey(decay, p, key))
  {
    hide Share, OfKey, Decayed, Eligible;
    DenominatorPositive(decay, clicks, p);
    var credit := (c: Click) => if c.Key() == key then Share(decay, clicks, p, c) else 0.0;
    forall c ensures OfKey(decay, p, key)(c) == Sum(Eligible(clicks, p), Decayed(decay, p)) * credit(c) {
      ShareOfKey(decay, clicks, p, c, key);
    }
    SumScale(Eligible(clicks, p), Sum(Eligible(clicks, p), Decayed(decay, p)), credit, OfKey(decay, p, key));
  }

  lemma ShareOfKey(decay: Decay, clicks: seq<Click>, p: Pixel, c: Click, key: Key)
    requires Sum(Eligible(clicks, p), Decayed(decay, p)) > 0.0
    ensures Sum(Eligible(clicks, p), Decayed(decay, p)) * (if c.Key() == key then Share(decay, clicks, p, c) else 0.0)
         == OfKey(decay, p, key)(c)
  {
    hide Eligible;
    Undo(Decayed(decay, p)(c), Sum(Eligible(clicks, p), Decayed(decay, p)));
  }

  lemma Undo(a: real, b: real)
    requires b > 0.0
    ensures b * (a / b) == a
  {
  }

  /** The same part of a larger total is a smaller quotient. */
  lemma Diluted(less: real, quotient: real, part: real, total: real, more: real)
    requires total > 0.0 && more > 0.0 && quotient > 0.0
    requires total * quotient == part && (total + more) * less == part
    ensures less < quotient
  {
    assert more * quotient > 0.0;
    assert (total + more) * (quotient - less) == more * quotient;
  }

  /** A pixel's credit to a key after clicks of other keys arrive: lower if they reroute it, else the same. */
  lemma OthersDiluteCredit(decay: Decay, clicks: seq<Click>, added: seq<Click>, p: Pixel, watermark: int, key: Key)
    requires NewIds(clicks, added) && forall c :: c in added ==> c.Key() != key
    ensures CreditTo(decay, clicks + added, p, watermark, key) <= CreditTo(decay, clicks, p, watermark, key)
    ensures CreditTo(decay, clicks + added, p, watermark, key) == CreditTo(decay, clicks, p, watermark, key) <==>
      !(OnTime(p, watermark) && Credits(clicks, p, key) && Reroutes(clicks, added, p))
  {
    EligibleGrown(clicks, added, p);
    EligibleFrom(added, p);
    CreditPositive(decay, clicks, p, watermark, key);
    CreditPositive(decay, clicks + added, p, watermark, key);
    if !Reroutes(clicks, added, p) || !Credits(clicks, p, key) {
      SettledCredit(decay, clicks, added, p, watermark, key);
    } else if OnTime(p, watermark) && !NamesClick(added, p) {
      SharedMore(decay, clicks, added, p, watermark, key);
    }
  }

  lemma SharedMore(decay: Decay, clicks: seq<Click>, added: seq<Click>, p: Pixel, watermark: int, key: Key)
    requires NewIds(clicks, added) && forall c :: c in added ==> c.Key() != key
    requires OnTime(p, watermark) && Credits(clicks, p, key) && Eligible(added, p) != []
    requires Eligible(clicks + added, p) == Eligible(clicks, p) + Eligible(added, p)
    ensures CreditTo(decay, clicks + added, p, watermark, key) < CreditTo(decay, clicks, p, watermark, key)
  {
    hide Eligible, MayCredit, CreditTo, Decayed, OfKey;
    var mine, others := Eligible(clicks, p), Eligible(added, p);
    CreditPositive(decay, clicks, p, watermark, key);
    CreditIsRatio(decay, clicks, p, watermark, key);
    CreditIsRatio(decay, clicks + added, p, watermark, key);
    SumConcat(mine, others, OfKey(decay, p, key));
    SumConcat(mine, others, Decayed(decay, p));
    OthersHaveNone(decay, added, p, key);
    DenominatorPositive(decay, added, p);
    Diluted(CreditTo(decay, clicks + added, p, watermark, key), CreditTo(decay, clicks, p, watermark, key),
            Sum(mine, OfKey(decay, p, key)), Sum(mine, Decayed(decay, p)), Sum(others, Decayed(decay, p)));
  }

  lemma OthersHaveNone(decay: Decay, clicks: seq<Click>, p: Pixel, key: Key)
    requires forall c :: c in clicks ==> c.Key() != key
    ensures Sum(Eligible(clicks, p), OfKey(decay, p, key)) == 0.0
  {
    EligibleFrom(clicks, p);
    SumNonNegative(Eligible(clicks, p), OfKey(decay, p, key));
  }

  /** While only clicks of other keys arrive and no pixel is admitted for the key, its weight never rises, and stays
      exactly when no pixel that credits the key is rerouted. */
  lemma OthersDiluteWeight(decay: Decay, clicks: seq<Click>, newClicks: seq<Click>, pixels: seq<Pixel>,
                           newPixels: seq<Pixel>, w1: int, w2: int, key: Key)
    requires NewIds(clicks, newClicks) && w1 <= w2 && forall p :: p in newPixels ==> p.receivedAt > w1
    requires forall c :: c in newClicks ==> c.Key() != key
    requires forall p :: p in pixels + newPixels ==> !Admits(clicks, p, w1, w2, key)
    ensures WeightOf(decay, clicks + newClicks, pixels + newPixels, w2, key) <= WeightOf(decay, clicks, pixels, w1, key)
    ensures WeightOf(decay, clicks + newClicks, pixels + newPixels, w2, key) == WeightOf(decay, clicks, pixels, w1, key) <==>
      forall p :: p in pixels + newPixels && OnTime(p, w2) && Credits(clicks, p, key) ==> !Reroutes(clicks, newClicks, p)
  {
    var all := pixels + newPixels;
    var before := (p: Pixel) => CreditTo(decay, clicks, p, w2, key);
    var after := (p: Pixel) => CreditTo(decay, clicks + newClicks, p, w2, key);
    var lost := (p: Pixel) => before(p) - after(p);
    WeightStable(decay, clicks, pixels, newPixels, w1, w2, key);
    forall p | p in all
      ensures lost(p) >= 0.0
      ensures lost(p) == 0.0 <==> !(OnTime(p, w2) && Credits(clicks, p, key) && Reroutes(clicks, newClicks, p))
    {
      OthersDiluteCredit(decay, clicks, newClicks, p, w2, key);
    }
    SumAdd(all, after, lost, before);
    SumNonNegative(all, lost);
  }

  // ---------------------------------------------------------------------------------------------
  // A new click and a pixel that names it.

  /** Together they raise the weight of the click's key. */
  lemma FreshCreditRaises(decay: Decay, clicks: seq<Click>, click: Click, pixels: seq<Pixel>, pixel: Pixel, w1: int,
                          key: Key)
    requires NewIds(clicks, [click]) && click.Key() == key && click.clickId != ""
    requires forall p :: p in pixels ==> !Reaches(click, p)
    requires pixel.receivedAt == w1 + 1 && pixel.clickId == Some(click.clickId)
    requires pixel.merchantId == click.merchantId && InWindow(click, pixel)
    ensures WeightOf(decay, clicks + [click], pixels + [pixel], w1 + 1, key) > WeightOf(decay, clicks, pixels, w1, key)
  {
    var w2 := w1 + 1;
    forall p | p in pixels + [] && OnTime(p, w2) ensures Settled(clicks, [click], p, key) {
      UnreachedSettled(clicks, [click], p, key);
    }
    assert pixels + [] == pixels;
    SettledWeight(decay, clicks, [click], pixels, [], w1, w2, key);
    WeightStable(decay, clicks, pixels, [], w1, w2, key);
    WeightsSnoc(decay, clicks + [click], pixels, pixel, w2, key);
    NamesGrown(clicks, [click], pixel);
    EligibleFrom(clicks + [click], pixel);
    assert click in [click] && click in Eligible(clicks + [click], pixel);
    CreditPositive(decay, clicks + [click], pixel, w2, key);
  }

  // ---------------------------------------------------------------------------------------------
  // Two clicks of the same age.

  lemma LoneCredit(decay: Decay, c: Click, p: Pixel, watermark: int)
    requires OnTime(p, watermark) && Eligible([c], p) == [c]
    ensures CreditTo(decay, [c], p, watermark, c.Key()) == 1.0
  {
    CreditIsRatio(decay, [c], p, watermark, c.Key());
    SumOne(c, OfKey(decay, p, c.Key()));
    SumOne(c, Decayed(decay, p));
    Determined(Decayed(decay, p)(c), CreditTo(decay, [c], p, watermark, c.Key()), 1.0);
  }

  lemma Determined(total: real, a: real, b: real)
    requires total > 0.0 && total * a == total * b
    ensures a == b
  {
  }

  /** They share the pixel's unit evenly. */
  lemma EvenCredit(decay: Decay, c: Click, other: Click, p: Pixel, watermark: int)
    requires OnTime(p, watermark) && Eligible([c] + [other], p) == [c] + [other]
    requires c.eventTime == other.eventTime && c.Key() != other.Key()
    ensures CreditTo(decay, [c] + [other], p, watermark, c.Key()) == 0.5
  {
    var mine, all := OfKey(decay, p, c.Key()), Decayed(decay, p);
    CreditIsRatio(decay, [c] + [other], p, watermark, c.Key());
    SumConcat([c], [other], mine);
    SumConcat([c], [other], all);
    SumOne(c, mine);
    SumOne(other, mine);
    SumOne(c, all);
    SumOne(other, all);
    Determined(all(c) + all(other), CreditTo(decay, [c] + [other], p, watermark, c.Key()), 0.5);
  }

  lemma EligibleAlone(c: Click, p: Pixel)
    requires p.clickId.None? && Reaches(c, p)
    ensures Eligible([c], p) == [c] && !NamesClick([c], p)
  {
    FilterAll([c], (x: Click) => MayCredit([c], p, x));
  }

  /** An identity's pixel and two of its clicks of the same age: the second click takes half of the credit. */
  lemma SharedEvenly(decay: Decay, c: Click, other: Click, p: Pixel, watermark: int)
    requires p.clickId.None? && Reaches(c, p) && Reaches(other, p) && c.clickId != other.clickId
    requires c.eventTime == other.eventTime && c.Key() != other.Key() && OnTime(p, watermark)
    ensures CreditTo(decay, [c], p, watermark, c.Key()) == 1.0
    ensures CreditTo(decay, [c] + [other], p, watermark, c.Key()) == 0.5
    ensures Credits([c], p, c.Key()) && Reroutes([c], [other], p)
  {
    hide Eligible, Reaches, CreditTo, MayCredit;
    EligibleAlone(c, p);
    EligibleAlone(other, p);
    EligibleGrown([c], [other], p);
    LoneCredit(decay, c, p, watermark);
    EvenCredit(decay, c, other, p, watermark);
    assert c in [c];
  }

  /** Two such pixels, one on time and one admitted later: what the late click takes the late pixel brings. */
  lemma ChangesCancel(decay: Decay, c: Click, other: Click, early: Pixel, late: Pixel, w1: int, w2: int)
    requires early.clickId.None? && Reaches(c, early) && Reaches(other, early) && early.receivedAt <= w1 <= w2
    requires late.clickId.None? && Reaches(c, late) && Reaches(other, late) && w1 < late.receivedAt <= w2
    requires c.clickId != other.clickId && c.eventTime == other.eventTime && c.Key() != other.Key()
    ensures WeightOf(decay, [c], [early], w1, c.Key()) == 1.0
    ensures WeightOf(decay, [c] + [other], [early] + [late], w2, c.Key()) == 1.0
    ensures Admits([c], late, w1, w2, c.Key()) && !Settled([c], [other], early, c.Key())
  {
    hide CreditTo, Reaches, Credits, Reroutes;
    SharedEvenly(decay, c, other, early, w1);
    SharedEvenly(decay, c, other, early, w2);
    SharedEvenly(decay, c, other, late, w2);
    var before := (p: Pixel) => CreditTo(decay, [c], p, w1, c.Key());
    var after := (p: Pixel) => CreditTo(decay, [c] + [other], p, w2, c.Key());
    SumOne(early, before);
    SumOne(early, after);
    SumOne(late, after);
    SumConcat([early], [late], after);
  }
}
