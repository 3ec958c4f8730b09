/** Open-loop conversion credit: each matched pixel hands out exactly one unit over its eligible clicks. */
module PixelAttribution {
  import opened Outcomes
  import opened Seqs

  const PIXEL_WINDOW := 604_800

  type Key = (string, int, int)

  datatype Click = Click(
    clickId: string, requestId: string, videoId: int, poiId: int, identity: Option<string>, merchantId: int,
    eventTime: int) {
    function Key(): Key { (requestId, videoId, poiId) }
  }

  datatype Pixel = Pixel(
    eventId: string, conversionId: string, identity: Option<string>, merchantId: int, eventTime: int, receivedAt: int,
    clickId: Option<string>)

  /** The half-life decay of a click's age, `exp(-log(2) * age / half_life)`: some positive function. */
  type Decay = f: int -> real | forall age :: f(age) > 0.0 ghost witness (age: int) => 1.0

  datatype Report = Report(matched: nat, orphan: nat, missing: nat, late: nat, attributedWeight: real)

  predicate InWindow(click: Click, pixel: Pixel) {
    0 <= pixel.eventTime - click.eventTime <= PIXEL_WINDOW
  }

  /** The pixel names a click that is in the log. An empty click id names none. */
  predicate NamesClick(clicks: seq<Click>, pixel: Pixel) {
    pixel.clickId.Some? && pixel.clickId.value != "" && exists c :: c in clicks && c.clickId == pixel.clickId.value
  }

  predicate MayCredit(clicks: seq<Click>, pixel: Pixel, click: Click) {
    && click.merchantId == pixel.merchantId
    && InWindow(click, pixel)
    && if NamesClick(clicks, pixel) then click.clickId == pixel.clickId.value
       else pixel.identity.Some? && click.identity == pixel.identity
  }

  /** The clicks a pixel's unit of credit is shared over. */
  function Eligible(clicks: seq<Click>, pixel: Pixel): seq<Click> {
    Filter(clicks, (c: Click) => MayCredit(clicks, pixel, c))
  }

  function Decayed(decay: Decay, pixel: Pixel): Click -> real {
    (c: Click) => decay(pixel.eventTime - c.eventTime)
  }

  ghost function Share(decay: Decay, clicks: seq<Click>, pixel: Pixel, click: Click): real {
    var total := Sum(Eligible(clicks, pixel), Decayed(decay, pixel));
    if total == 0.0 then 0.0 else Decayed(decay, pixel)(click) / total
  }

  /** What a pixel credits to a key through some of its eligible clicks. */
  ghost function CreditOver(some: seq<Click>, decay: Decay, clicks: seq<Click>, pixel: Pixel, key: Key): real {
    Sum(some, (c: Click) => if c.Key() == key then Share(decay, clicks, pixel, c) else 0.0)
  }

  /** What one pixel credits to a key. */
  ghost function CreditTo(decay: Decay, clicks: seq<Click>, pixel: Pixel, watermark: int, key: Key): real {
    if pixel.receivedAt > watermark then 0.0
    else CreditOver(Eligible(clicks, pixel), decay, clicks, pixel, key)
  }

  /** What all pixels credit to a key. */
  ghost function WeightOf(decay: Decay, clicks: seq<Click>, pixels: seq<Pixel>, watermark: int, key: Key): real {
    Sum(pixels, (p: Pixel) => CreditTo(decay, clicks, p, watermark, key))
  }

  predicate OnTime(pixel: Pixel, watermark: int) {
    pixel.receivedAt <= watermark
  }

  predicate Matches(clicks: seq<Click>, pixel: Pixel, watermark: int) {
    OnTime(pixel, watermark) && Eligible(clicks, pixel) != []
  }

  predicate LacksIdentity(clicks: seq<Click>, pixel: Pixel, watermark: int) {
    OnTime(pixel, watermark) && !NamesClick(clicks, pixel) && pixel.identity.None?
  }

  lemma DenominatorPositive(decay: Decay, clicks: seq<Click>, pixel: Pixel)
    ensures Eligible(clicks, pixel) != [] <==> Sum(Eligible(clicks, pixel), Decayed(decay, pixel)) != 0.0
    ensures Sum(Eligible(clicks, pixel), Decayed(decay, pixel)) >= 0.0
  {
    var eligible, f := Eligible(clicks, pixel), Decayed(decay, pixel);
    SumNonNegative(eligible, f);
    if eligible != [] {
      assert eligible[0] in eligible && f(eligible[0]) > 0.0;
    }
  }

  /** A matched pixel's shares add up to one unit. */
  lemma SharesSumToOne(decay: Decay, clicks: seq<Click>, pixel: Pixel)
    requires Eligible(clicks, pixel) != []
    ensures Sum(Eligible(clicks, pixel), (c: Click) => Share(decay, clicks, pixel, c)) == 1.0
    ensures forall c :: Share(decay, clicks, pixel, c) > 0.0
  {
    var eligible, f := Eligible(clicks, pixel), Decayed(decay, pixel);
    var total := Sum(eligible, f);
    DenominatorPositive(decay, clicks, pixel);
    forall c ensures Share(decay, clicks, pixel, c) == (1.0 / total) * f(c) > 0.0 {
      Quotient(f(c), total);
    }
    SumScale(eligible, 1.0 / total, f, (c: Click) => Share(decay, clicks, pixel, c));
  }

  lemma Quotient(a: real, b: real)
    requires a > 0.0 && b > 0.0
    ensures a / b == (1.0 / b) * a > 0.0
  {
  }

  /** Two clicks of a pixel share in the ratio of the decays of their ages, so where decay falls with age the newer one
      never gets less. */
  lemma SharesFollowAges(decay: Decay, clicks: seq<Click>, pixel: Pixel, a: Click, b: Click)
    requires Eligible(clicks, pixel) != []
    ensures Share(decay, clicks, pixel, a) * decay(pixel.eventTime - b.eventTime)
         == Share(decay, clicks, pixel, b) * decay(pixel.eventTime - a.eventTime)
    ensures (forall x, y :: x <= y ==> decay(y) <= decay(x)) && a.eventTime >= b.eventTime ==>
      Share(decay, clicks, pixel, a) >= Share(decay, clicks, pixel, b)
  {
    var total := Sum(Eligible(clicks, pixel), Decayed(decay, pixel));
    DenominatorPositive(decay, clicks, pixel);
    hide Eligible, Sum;
    Ratio(decay(pixel.eventTime - a.eventTime), decay(pixel.eventTime - b.eventTime), total);
  }

  lemma Ratio(a: real, b: real, total: real)
    requires total > 0.0
    ensures a / total * b == b / total * a && (a >= b ==> a / total >= b / total)
  {
    var x, y := a / total, b / total;
    assert x * total == a && y * total == b;
    assert (x - y) * total == a - b;
    assert x * (y * total) == y * (x * total);
  }

  /** A pixel credits a key at all exactly when it is on time and one of its eligible clicks has the key. */
  lemma CreditPositive(decay: Decay, clicks: seq<Click>, pixel: Pixel, watermark: int, key: Key)
    ensures CreditTo(decay, clicks, pixel, watermark, key) >= 0.0
    ensures CreditTo(decay, clicks, pixel, watermark, key) > 0.0 <==>
      OnTime(pixel, watermark) && exists c :: c in Eligible(clicks, pixel) && c.Key() == key
  {
    var eligible := Eligible(clicks, pixel);
    if OnTime(pixel, watermark) && eligible != [] {
      SharesSumToOne(decay, clicks, pixel);
      SumNonNegative(eligible, (c: Click) => if c.Key() == key then Share(decay, clicks, pixel, c) else 0.0);
    }
  }

  // ---------------------------------------------------------------------------------------------
  // The weights dictionary: its keys in insertion order, and their values.

  function WeightAt(weights: map<Key, real>): Key -> real {
    (k: Key) => if k in weights then weights[k] else 0.0
  }

  ghost predicate Ledger(order: seq<Key>, weights: map<Key, real>) {
    Distinct(order) && forall k :: k in order <==> k in weights
  }

  lemma {:induction false} SumUpdateOne(order: seq<Key>, f: Key -> real, g: Key -> real, key: Key, amount: real)
    requires Distinct(order) && key in order
    requires forall k :: k in order ==> g(k) == f(k) + if k == key then amount else 0.0
    ensures Sum(order, g) == Sum(order, f) + amount
  {
    var front, last := order[..|order| - 1], order[|order| - 1];
    assert order == front + [last];
    assert last in order;
    if last == key {
      SumSame(front, f, g);
    } else {
      SumUpdateOne(front, f, g, key, amount);
    }
  }

  method AddCredit(order: seq<Key>, weights: map<Key, real>, key: Key, amount: real)
    returns (order': seq<Key>, weights': map<Key, real>)
    requires Ledger(order, weights)
    ensures Ledger(order', weights')
    ensures forall k :: WeightAt(weights')(k) == WeightAt(weights)(k) + if k == key then amount else 0.0
    ensures forall k :: k in weights' <==> k in weights || k == key
    ensures Sum(order', WeightAt(weights')) == Sum(order, WeightAt(weights)) + amount
  {
    weights' := weights[key := WeightAt(weights)(key) + amount];
    if key in weights {
      order' := order;
      SumUpdateOne(order, WeightAt(weights), WeightAt(weights'), key, amount);
    } else {
      order' := order + [key];
      SumConcat(order, [key], WeightAt(weights'));
      SumSame(order, WeightAt(weights), WeightAt(weights'));
      assert [key][..0] == [];
    }
  }

  /** From one state of the dictionary to the next, exactly the pixel's credit through `some` clicks comes in. */
  ghost predicate AddsClicks(order: seq<Key>, weights: map<Key, real>, order': seq<Key>, weights': map<Key, real>,
                             some: seq<Click>, decay: Decay, clicks: seq<Click>, pixel: Pixel) {
    && Ledger(order', weights')
    && Sum(order', WeightAt(weights')) ==
       Sum(order, WeightAt(weights)) + Sum(some, (c: Click) => Share(decay, clicks, pixel, c))
    && (forall k :: WeightAt(weights')(k) == WeightAt(weights)(k) + CreditOver(some, decay, clicks, pixel, k))
    && (forall k :: k in weights' <==> k in weights || exists c :: c in some && c.Key() == k)
  }

  method AddClick(ghost order0: seq<Key>, ghost weights0: map<Key, real>, order: seq<Key>, weights: map<Key, real>,
                  ghost some: seq<Click>, click: Click, ghost decay: Decay, ghost clicks: seq<Click>,
                  ghost pixel: Pixel, share: real)
    returns (order': seq<Key>, weights': map<Key, real>)
    requires Ledger(order, weights) && share == Share(decay, clicks, pixel, click)
    requires AddsClicks(order0, weights0, order, weights, some, decay, clicks, pixel)
    ensures Ledger(order', weights')
    ensures AddsClicks(order0, weights0, order', weights', some + [click], decay, clicks, pixel)
  {
    hide Share, WeightAt, Ledger, CreditOver, Sum;
    order', weights' := AddCredit(order, weights, click.Key(), share);
    OneMoreClick(some, click, decay, clicks, pixel);
  }

  lemma OneMoreClick(some: seq<Click>, click: Click, decay: Decay, clicks: seq<Click>, pixel: Pixel)
    ensures Sum(some + [click], (c: Click) => Share(decay, clicks, pixel, c))
         == Sum(some, (c: Click) => Share(decay, clicks, pixel, c)) + Share(decay, clicks, pixel, click)
    ensures forall k ::
      CreditOver(some + [click], decay, clicks, pixel, k) ==
      CreditOver(some, decay, clicks, pixel, k) + (if k == click.Key() then Share(decay, clicks, pixel, click) else 0.0)
    ensures forall c :: c in some + [click] <==> c in some || c == click
  {
    hide Share;
    assert (some + [click])[..|some|] == some;
  }

  lemma NoClickAdded(order: seq<Key>, weights: map<Key, real>, decay: Decay, clicks: seq<Click>, pixel: Pixel)
    requires Ledger(order, weights)
    ensures AddsClicks(order, weights, order, weights, [], decay, clicks, pixel)
  {
  }

  method SumDecay(decay: Decay, pixel: Pixel, eligible: seq<Click>) returns (total: real)
    ensures total == Sum(eligible, Decayed(decay, pixel))
  {
    total := 0.0;
    for i := 0 to |eligible|
      invariant total == Sum(eligible[..i], Decayed(decay, pixel))
    {
      assert eligible[..i + 1][..i] == eligible[..i];
      total := total + decay(pixel.eventTime - eligible[i].eventTime);
    }
    assert eligible[..|eligible|] == eligible;
  }

  /** `weights[click.key] += value / denominator` over one pixel's eligible clicks. */
  method CreditClicks(decay: Decay, ghost clicks: seq<Click>, pixel: Pixel, eligible: seq<Click>, order: seq<Key>,
                      weights: map<Key, real>)
    returns (order': seq<Key>, weights': map<Key, real>)
    requires Ledger(order, weights) && eligible == Eligible(clicks, pixel) != []
    ensures AddsClicks(order, weights, order', weights', eligible, decay, clicks, pixel)
  {
    var denominator := SumDecay(decay, pixel, eligible);
    DenominatorPositive(decay, clicks, pixel);
    hide AddsClicks, Ledger, Sum, Eligible;
    order', weights' := order, weights;
    NoClickAdded(order, weights, decay, clicks, pixel);
    for i := 0 to |eligible|
      invariant Ledger(order', weights')
      invariant AddsClicks(order, weights, order', weights', eligible[..i], decay, clicks, pixel)
    {
      var share := decay(pixel.eventTime - eligible[i].eventTime) / denominator;
      assert eligible[..i + 1] == eligible[..i] + [eligible[i]];
      order', weights' := AddClick(order, weights, order', weights', eligible[..i], eligible[i], decay, clicks, pixel,
                                   share);
    }
    assert eligible[..|eligible|] == eligible;
  }

  /** The weights are the credits of the pixels seen, and total the matched ones. */
  ghost predicate Weighs(order: seq<Key>, weights: map<Key, real>, matched: nat, decay: Decay, clicks: seq<Click>,
                         seen: seq<Pixel>, watermark: int) {
    && Ledger(order, weights)
    && (forall k :: WeightAt(weights)(k) == WeightOf(decay, clicks, seen, watermark, k))
    && (forall k :: k in weights <==> Credited(clicks, seen, watermark, k))
    && Sum(order, WeightAt(weights)) == matched as real
  }

  /** The counters sort the pixels seen. */
  ghost predicate Counted(matched: nat, orphan: nat, missing: nat, late: nat, clicks: seq<Click>, seen: seq<Pixel>,
                          watermark: int) {
    && matched == |Filter(seen, (p: Pixel) => Matches(clicks, p, watermark))|
    && late == |Filter(seen, (p: Pixel) => !OnTime(p, watermark))|
    && matched + orphan + late == |seen|
    && missing == |Filter(seen, (p: Pixel) => LacksIdentity(clicks, p, watermark))|
    && missing <= orphan
  }

  lemma NoIdentityNoClicks(clicks: seq<Click>, pixel: Pixel)
    requires !NamesClick(clicks, pixel) && pixel.identity.None?
    ensures Eligible(clicks, pixel) == []
  {
    FilterNone(clicks, (c: Click) => MayCredit(clicks, pixel, c));
  }

  // ---------------------------------------------------------------------------------------------
  // The two dictionaries of clicks.

  ghost predicate DistinctIds(clicks: seq<Click>) {
    forall i, j :: 0 <= i < j < |clicks| ==> clicks[i].clickId != clicks[j].clickId
  }

  ghost predicate FindsIds(byId: map<string, Click>, clicks: seq<Click>) {
    && (forall c :: c in clicks ==> c.clickId in byId)
    && (forall id :: id in byId ==> byId[id] in clicks && byId[id].clickId == id)
  }

  ghost predicate ListsIdentities(byIdentity: map<(string, int), seq<Click>>, clicks: seq<Click>) {
    forall who, merchant :: (if (who, merchant) in byIdentity then byIdentity[(who, merchant)] else []) ==
      Filter(clicks, (c: Click) => c.identity == Some(who) && c.merchantId == merchant)
  }

  /** The one finds a click by its id, the other lists the clicks of an identity at a merchant in log order. */
  ghost predicate Indexed(byId: map<string, Click>, byIdentity: map<(string, int), seq<Click>>, clicks: seq<Click>) {
    FindsIds(byId, clicks) && ListsIdentities(byIdentity, clicks)
  }

  lemma NothingIndexed()
    ensures Indexed(map[], map[], [])
  {
  }

  lemma IndexedSnoc(byId: map<string, Click>, byIdentity: map<(string, int), seq<Click>>, clicks: seq<Click>, c: Click)
    requires Indexed(byId, byIdentity, clicks)
    ensures c.identity.None? ==> Indexed(byId[c.clickId := c], byIdentity, clicks + [c])
    ensures c.identity.Some? ==>
      var key := (c.identity.value, c.merchantId);
      Indexed(byId[c.clickId := c], byIdentity[key := (if key in byIdentity then byIdentity[key] else []) + [c]],
              clicks + [c])
  {
    hide FindsIds, ListsIdentities;
    FindsSnoc(byId, clicks, c);
    ListsSnoc(byIdentity, clicks, c);
  }

  lemma FindsSnoc(byId: map<string, Click>, clicks: seq<Click>, c: Click)
    requires FindsIds(byId, clicks)
    ensures FindsIds(byId[c.clickId := c], clicks + [c])
  {
  }

  lemma ListsSnoc(byIdentity: map<(string, int), seq<Click>>, clicks: seq<Click>, c: Click)
    requires ListsIdentities(byIdentity, clicks)
    ensures c.identity.None? ==> ListsIdentities(byIdentity, clicks + [c])
    ensures c.identity.Some? ==>
      var key := (c.identity.value, c.merchantId);
      ListsIdentities(byIdentity[key := (if key in byIdentity then byIdentity[key] else []) + [c]], clicks + [c])
  {
    forall who, merchant {
      FilterSnoc(clicks, c, (c: Click) => c.identity == Some(who) && c.merchantId == merchant);
    }
    hide Filter;
  }

  method IndexClicks(clicks: seq<Click>) returns (byId: map<string, Click>, byIdentity: map<(string, int), seq<Click>>)
    ensures Indexed(byId, byIdentity, clicks)
  {
    hide Indexed;
    byId, byIdentity := map[], map[];
    NothingIndexed();
    for i := 0 to |clicks|
      invariant Indexed(byId, byIdentity, clicks[..i])
    {
      var click := clicks[i];
      IndexedSnoc(byId, byIdentity, clicks[..i], click);
      assert clicks[..i + 1] == clicks[..i] + [click];
      byId := byId[click.clickId := click];
      if click.identity.Some? {
        var key := (click.identity.value, click.merchantId);
        byIdentity := byIdentity[key := (if key in byIdentity then byIdentity[key] else []) + [click]];
      }
    }
    assert clicks[..|clicks|] == clicks;
  }

  lemma {:induction false} OnlyOne(clicks: seq<Click>, click: Click, p: Click -> bool)
    requires DistinctIds(clicks) && click in clicks
    requires forall c :: c in clicks ==> (p(c) ==> c.clickId == click.clickId)
    ensures Filter(clicks, p) == if p(click) then [click] else []
  {
    var front, last := clicks[..|clicks| - 1], clicks[|clicks| - 1];
    assert clicks == front + [last];
    if last == click {
      forall c | c in front ensures !p(c) {
        var i :| 0 <= i < |front| && front[i] == c;
        assert clicks[i].clickId != clicks[|front|].clickId;
      }
      FilterNone(front, p);
    } else {
      var i :| 0 <= i < |front| && front[i] == click;
      assert clicks[i].clickId != clicks[|front|].clickId;
      assert click in front && last in clicks;
      OnlyOne(front, click, p);
    }
  }

  /** The clicks a pixel's unit goes to, looked up. */
  method FindEligible(byId: map<string, Click>, byIdentity: map<(string, int), seq<Click>>, ghost clicks: seq<Click>,
                      pixel: Pixel)
    returns (eligible: seq<Click>, lacksIdentity: bool)
    requires Indexed(byId, byIdentity, clicks) && DistinctIds(clicks)
    ensures eligible == Eligible(clicks, pixel)
    ensures lacksIdentity == (!NamesClick(clicks, pixel) && pixel.identity.None?)
  {
    eligible, lacksIdentity := [], false;
    if pixel.clickId.Some? && pixel.clickId.value != "" && pixel.clickId.value in byId {
      var click := byId[pixel.clickId.value];
      OnlyOne(clicks, click, (c: Click) => MayCredit(clicks, pixel, c));
      if click.merchantId == pixel.merchantId && 0 <= pixel.eventTime - click.eventTime <= 604_800 {
        eligible := [click];
      }
    } else if pixel.identity.None? {
      lacksIdentity := true;
      NoIdentityNoClicks(clicks, pixel);
    } else {
      var key := (pixel.identity.value, pixel.merchantId);
      var own := if key in byIdentity then byIdentity[key] else [];
      eligible := InTime(own, pixel);
      FilterFilter(clicks, (c: Click) => c.identity == Some(pixel.identity.value) && c.merchantId == pixel.merchantId,
                   (c: Click) => InWindow(c, pixel), (c: Click) => MayCredit(clicks, pixel, c));
    }
  }

  method InTime(own: seq<Click>, pixel: Pixel) returns (eligible: seq<Click>)
    ensures eligible == Filter(own, (c: Click) => InWindow(c, pixel))
  {
    eligible := [];
    for i := 0 to |own|
      invariant eligible == Filter(own[..i], (c: Click) => InWindow(c, pixel))
    {
      FilterNext(own, i, (c: Click) => InWindow(c, pixel));
      if 0 <= pixel.eventTime - own[i].eventTime <= 604_800 {
        eligible := eligible + [own[i]];
      }
    }
    assert own[..|own|] == own;
  }

  /** One pixel: late, orphaned or matched. */
  method AttributeOne(decay: Decay, byId: map<string, Click>, byIdentity: map<(string, int), seq<Click>>,
                      ghost clicks: seq<Click>, ghost seen: seq<Pixel>, pixel: Pixel, watermark: int,
                      order: seq<Key>, weights: map<Key, real>, matched: nat, orphan: nat, missing: nat, late: nat)
    returns (order': seq<Key>, weights': map<Key, real>, matched': nat, orphan': nat, missing': nat, late': nat)
    requires Indexed(byId, byIdentity, clicks) && DistinctIds(clicks)
    requires Weighs(order, weights, matched, decay, clicks, seen, watermark)
    requires Counted(matched, orphan, missing, late, clicks, seen, watermark)
    ensures Weighs(order', weights', matched', decay, clicks, seen + [pixel], watermark)
    ensures Counted(matched', orphan', missing', late', clicks, seen + [pixel], watermark)
  {
    hide Weighs, Counted, Indexed, DistinctIds;
    order', weights', matched', orphan', missing', late' := order, weights, matched, orphan, missing, late;
    CountedSnoc(matched, orphan, missing, late, clicks, seen, pixel, watermark);
    if pixel.receivedAt > watermark {
      late' := late + 1;
      WeighsSkip(order, weights, matched, decay, clicks, seen, pixel, watermark);
      return;
    }
    var eligible, lacksIdentity := FindEligible(byId, byIdentity, clicks, pixel);
    if lacksIdentity {
      missing' := missing + 1;
    }
    if eligible == [] {
      orphan' := orphan + 1;
      WeighsSkip(order, weights, matched, decay, clicks, seen, pixel, watermark);
      return;
    }
    TotalIsMatched(order, weights, matched, decay, clicks, seen, watermark);
    order', weights' := CreditClicks(decay, clicks, pixel, eligible, order, weights);
    WeighsCredit(order, weights, order', weights', matched, decay, clicks, seen, pixel, watermark);
    matched' := matched + 1;
  }

  /** The pixel loop. Every pixel is late, orphaned or matched; the weights are the pixels' credits, and
      their total is the number of matched pixels. */
  method Attribute(decay: Decay, clicks: seq<Click>, pixels: seq<Pixel>, watermark: int)
    returns (order: seq<Key>, weights: map<Key, real>, report: Report)
    requires DistinctIds(clicks)
    ensures Weighs(order, weights, report.matched, decay, clicks, pixels, watermark)
    ensures Counted(report.matched, report.orphan, report.missing, report.late, clicks, pixels, watermark)
    ensures report.attributedWeight == report.matched as real
  {
    hide *;
    var byId, byIdentity := IndexClicks(clicks);
    order, weights := [], map[];
    NothingSeen(decay, clicks, watermark);
    var matched: nat, orphan: nat, missing: nat, late: nat := 0, 0, 0, 0;
    for i := 0 to |pixels|
      invariant Weighs(order, weights, matched, decay, clicks, pixels[..i], watermark)
      invariant Counted(matched, orphan, missing, late, clicks, pixels[..i], watermark)
    {
      assert pixels[..i + 1] == pixels[..i] + [pixels[i]];
      order, weights, matched, orphan, missing, late :=
        AttributeOne(decay, byId, byIdentity, clicks, pixels[..i], pixels[i], watermark, order, weights, matched, orphan,
                     missing, late);
    }
    assert pixels[..|pixels|] == pixels;
    report := Report(matched, orphan, missing, late, Sum(order, WeightAt(weights)));
    TotalIsMatched(order, weights, matched, decay, clicks, pixels, watermark);
  }

  lemma NothingSeen(decay: Decay, clicks: seq<Click>, watermark: int)
    ensures Weighs([], map[], 0, decay, clicks, [], watermark) && Counted(0, 0, 0, 0, clicks, [], watermark)
  {
  }

  lemma TotalIsMatched(order: seq<Key>, weights: map<Key, real>, matched: nat, decay: Decay, clicks: seq<Click>,
                       seen: seq<Pixel>, watermark: int)
    requires Weighs(order, weights, matched, decay, clicks, seen, watermark)
    ensures Ledger(order, weights) && Sum(order, WeightAt(weights)) == matched as real
  {
  }

  ghost predicate Credited(clicks: seq<Click>, pixels: seq<Pixel>, watermark: int, key: Key) {
    exists p, c :: p in pixels && OnTime(p, watermark) && c in Eligible(clicks, p) && c.Key() == key
  }

  function One(b: bool): nat {
    if b then 1 else 0
  }

  lemma CountedSnoc(matched: nat, orphan: nat, missing: nat, late: nat, clicks: seq<Click>, seen: seq<Pixel>, p: Pixel,
                    watermark: int)
    requires Counted(matched, orphan, missing, late, clicks, seen, watermark)
    ensures Counted(matched + One(Matches(clicks, p, watermark)),
                    orphan + One(OnTime(p, watermark) && !Matches(clicks, p, watermark)),
                    missing + One(LacksIdentity(clicks, p, watermark)), late + One(!OnTime(p, watermark)),
                    clicks, seen + [p], watermark)
  {
    FilterSnoc(seen, p, (p: Pixel) => Matches(clicks, p, watermark));
    FilterSnoc(seen, p, (p: Pixel) => !OnTime(p, watermark));
    FilterSnoc(seen, p, (p: Pixel) => LacksIdentity(clicks, p, watermark));
    if LacksIdentity(clicks, p, watermark) {
      NoIdentityNoClicks(clicks, p);
    }
  }

  lemma WeightsSnoc(decay: Decay, clicks: seq<Click>, front: seq<Pixel>, p: Pixel, watermark: int, k: Key)
    ensures WeightOf(decay, clicks, front + [p], watermark, k)
         == WeightOf(decay, clicks, front, watermark, k) + CreditTo(decay, clicks, p, watermark, k)
    ensures Credited(clicks, front + [p], watermark, k) <==>
      Credited(clicks, front, watermark, k)
      || (OnTime(p, watermark) && exists c :: c in Eligible(clicks, p) && c.Key() == k)
  {
    assert (front + [p])[..|front|] == front;
    assert forall x :: x in front + [p] <==> x in front || x == p;
  }

  lemma WeighsSkip(order: seq<Key>, weights: map<Key, real>, matched: nat, decay: Decay, clicks: seq<Click>,
                   seen: seq<Pixel>, p: Pixel, watermark: int)
    requires Weighs(order, weights, matched, decay, clicks, seen, watermark) && !Matches(clicks, p, watermark)
    ensures Weighs(order, weights, matched, decay, clicks, seen + [p], watermark)
  {
    forall k
      ensures WeightOf(decay, clicks, seen + [p], watermark, k) == WeightOf(decay, clicks, seen, watermark, k)
      ensures Credited(clicks, seen + [p], watermark, k) <==> Credited(clicks, seen, watermark, k)
    {
      WeightsSnoc(decay, clicks, seen, p, watermark, k);
    }
  }

  lemma WeighsCredit(order: seq<Key>, weights: map<Key, real>, order': seq<Key>, weights': map<Key, real>, matched: nat,
                     decay: Decay, clicks: seq<Click>, seen: seq<Pixel>, p: Pixel, watermark: int)
    requires Weighs(order, weights, matched, decay, clicks, seen, watermark) && Matches(clicks, p, watermark)
    requires AddsClicks(order, weights, order', weights', Eligible(clicks, p), decay, clicks, p)
    ensures Weighs(order', weights', matched + 1, decay, clicks, seen + [p], watermark)
  {
    SharesSumToOne(decay, clicks, p);
    forall k
      ensures WeightAt(weights')(k) == WeightOf(decay, clicks, seen + [p], watermark, k)
      ensures k in weights' <==> Credited(clicks, seen + [p], watermark, k)
    {
      WeightsSnoc(decay, clicks, seen, p, watermark, k);
    }
  }

  /** Spread over any list of distinct keys, the weights never exceed the matched pixels, and reach them
      exactly when every credited key is listed. */
  lemma WeightsOverKeys(order: seq<Key>, weights: map<Key, real>, matched: nat, decay: Decay, clicks: seq<Click>,
                        pixels: seq<Pixel>, watermark: int, keys: seq<Key>)
    requires Weighs(order, weights, matched, decay, clicks, pixels, watermark) && Distinct(keys)
    ensures Sum(keys, WeightAt(weights)) <= matched as real
    ensures Sum(keys, WeightAt(weights)) == matched as real <==>
      forall k :: Credited(clicks, pixels, watermark, k) ==> k in keys
  {
    var f := WeightAt(weights);
    var listed, unlisted := (k: Key) => k in keys, (k: Key) => k !in keys;
    var known, unknown := (k: Key) => k in weights, (k: Key) => k !in weights;
    forall k | k in weights ensures f(k) > 0.0 {
      CreditedWeightPositive(decay, clicks, pixels, watermark, k);
    }
    SumFilterSplit(order, listed, unlisted, f);
    SumFilterSplit(keys, known, unknown, f);
    FilterContains(order, listed);
    FilterContains(order, unlisted);
    FilterContains(keys, known);
    FilterContains(keys, unknown);
    FilterDistinct(order, listed);
    FilterDistinct(keys, known);
    SameElementsSameMultiset(Filter(order, listed), Filter(keys, known));
    SumReordered(Filter(order, listed), Filter(keys, known), f);
    SumNonNegative(Filter(keys, unknown), f);
    SumNonNegative(Filter(order, unlisted), f);
    forall k | k in weights && k !in keys ensures k in Filter(order, unlisted) && f(k) != 0.0 {
    }
  }

  lemma {:induction false} CreditedWeightPositive(decay: Decay, clicks: seq<Click>, pixels: seq<Pixel>, watermark: int,
                                                  key: Key)
    ensures WeightOf(decay, clicks, pixels, watermark, key) >= 0.0
    ensures WeightOf(decay, clicks, pixels, watermark, key) > 0.0 <==> Credited(clicks, pixels, watermark, key)
  {
    var credit := (p: Pixel) => CreditTo(decay, clicks, p, watermark, key);
    forall p | p in pixels
      ensures credit(p) >= 0.0
      ensures credit(p) > 0.0 <==> OnTime(p, watermark) && exists c :: c in Eligible(clicks, p) && c.Key() == key
    {
      CreditPositive(decay, clicks, p, watermark, key);
    }
    SumNonNegative(pixels, credit);
  }
}
