/** Per-trajectory accumulators: every counter is a count or a sum over the recorded exposures. */
module Trajectories {
  import opened Seqs
  import opened FeedEnvironment

  /** Default exchange rates of the long-term value container. */
  const STAY_MINUTE := 1.0
  const ACTIVE_DAY := 5.0
  const COMMERCIALIZATION_UNIT := 1.0

  datatype LtValue = LtValue(stay: real, activeDays: real, commercialization: real, total: real)

  /** `LTMetricContainer.evaluate`. */
  function Evaluate(stayMinutes: real, activeDays: real, commercialization: real): LtValue {
    var stay, days, accepted :=
      stayMinutes * STAY_MINUTE, activeDays * ACTIVE_DAY, commercialization * COMMERCIALIZATION_UNIT;
    LtValue(stay, days, accepted, stay + days + accepted)
  }

  /** Simulated exposures never claim accepted commercial value. */
  function LtOf(row: Row): LtValue {
    Evaluate(row.response.watchMinutes, Flag(row.returned), 0.0)
  }

  datatype Views = Views(plays: nat, play3s: nat, slides: nat, longViews: nat, highQuality: nat)

  datatype Social = Social(likes: nat, favorites: nat, comments: nat, shares: nat, negative: nat)

  datatype Anchors = Anchors(impressions: nat, clicks: nat, details: nat, favorites: nat, orders: nat)

  datatype Totals = Totals(
    rows: seq<Row>, sessions: nat, returned: nat, views: Views, social: Social, anchors: Anchors, watchMinutes: real,
    stay: real, lt: LtValue)

  datatype Event =
      Play | Play3s | Slide | LongView | HighQuality | Like | Favorite | Comment | Share | AnchorImpression
    | AnchorClick | PoiDetail | PoiFavorite | Paid | Negative
  {
    predicate In(r: Response) {
      match this
      case Play => r.play
      case Play3s => r.play3s
      case Slide => r.slide
      case LongView => r.longView
      case HighQuality => r.highQuality
      case Like => r.like
      case Favorite => r.favorite
      case Comment => r.comment
      case Share => r.share
      case AnchorImpression => r.anchorImpression
      case AnchorClick => r.anchorClick
      case PoiDetail => r.poiDetail
      case PoiFavorite => r.poiFavorite
      case Paid => r.payment
      case Negative => r.negative
    }
  }

  function Count(rows: seq<Row>, e: Event): nat {
    |Filter(rows, (r: Row) => e.In(r.response))|
  }

  function Minutes(r: Row): real {
    r.response.watchMinutes
  }

  function Stay(r: Row): real {
    r.response.stay
  }

  function LtStay(r: Row): real {
    LtOf(r).stay
  }

  function LtActiveDays(r: Row): real {
    LtOf(r).activeDays
  }

  function LtCommercialization(r: Row): real {
    LtOf(r).commercialization
  }

  function LtTotal(r: Row): real {
    LtOf(r).total
  }

  function Returned(rows: seq<Row>): nat {
    |Filter(rows, (r: Row) => r.returned)|
  }

  function CountViews(rows: seq<Row>): Views {
    Views(Count(rows, Play), Count(rows, Play3s), Count(rows, Slide), Count(rows, LongView), Count(rows, HighQuality))
  }

  function CountSocial(rows: seq<Row>): Social {
    Social(Count(rows, Like), Count(rows, Favorite), Count(rows, Comment), Count(rows, Share), Count(rows, Negative))
  }

  /** Orders are paid orders. */
  function CountAnchors(rows: seq<Row>): Anchors {
    Anchors(Count(rows, AnchorImpression), Count(rows, AnchorClick), Count(rows, PoiDetail), Count(rows, PoiFavorite),
            Count(rows, Paid))
  }

  function ValueAll(rows: seq<Row>): LtValue {
    LtValue(Sum(rows, LtStay), Sum(rows, LtActiveDays),
            Sum(rows, LtCommercialization), Sum(rows, LtTotal))
  }

  /** What a trajectory's totals mean. */
  function Tally(rows: seq<Row>): Totals {
    Totals(rows, 1 + Returned(rows), Returned(rows), CountViews(rows), CountSocial(rows), CountAnchors(rows),
           Sum(rows, Minutes), Sum(rows, Stay), ValueAll(rows))
  }

  // ---------------------------------------------------------------------------------------------
  // The running counters.

  lemma CountSnoc(rows: seq<Row>, row: Row, e: Event)
    ensures Count(rows + [row], e) == Count(rows, e) + Int(e.In(row.response))
  {
    FilterSnoc(rows, row, (r: Row) => e.In(r.response));
  }

  lemma SumSnoc(rows: seq<Row>, row: Row, f: Row -> real)
    ensures Sum(rows + [row], f) == Sum(rows, f) + f(row)
  {
    assert (rows + [row])[..|rows|] == rows;
  }

  lemma ReturnedSnoc(rows: seq<Row>, row: Row)
    ensures Returned(rows + [row]) == Returned(rows) + Int(row.returned)
  {
    FilterSnoc(rows, row, (r: Row) => r.returned);
  }

  function CountedViews(v: Views, r: Response): Views {
    Views(v.plays + Int(r.play), v.play3s + Int(r.play3s), v.slides + Int(r.slide), v.longViews + Int(r.longView),
          v.highQuality + Int(r.highQuality))
  }

  function CountedSocial(s: Social, r: Response): Social {
    Social(s.likes + Int(r.like), s.favorites + Int(r.favorite), s.comments + Int(r.comment), s.shares + Int(r.share),
           s.negative + Int(r.negative))
  }

  function CountedAnchors(a: Anchors, r: Response): Anchors {
    Anchors(a.impressions + Int(r.anchorImpression), a.clicks + Int(r.anchorClick), a.details + Int(r.poiDetail),
            a.favorites + Int(r.poiFavorite), a.orders + Int(r.payment))
  }

  lemma ViewsSnoc(rows: seq<Row>, row: Row)
    ensures CountViews(rows + [row]) == CountedViews(CountViews(rows), row.response)
  {
    CountSnoc(rows, row, Play);
    CountSnoc(rows, row, Play3s);
    CountSnoc(rows, row, Slide);
    CountSnoc(rows, row, LongView);
    CountSnoc(rows, row, HighQuality);
  }

  lemma SocialSnoc(rows: seq<Row>, row: Row)
    ensures CountSocial(rows + [row]) == CountedSocial(CountSocial(rows), row.response)
  {
    CountSnoc(rows, row, Like);
    CountSnoc(rows, row, Favorite);
    CountSnoc(rows, row, Comment);
    CountSnoc(rows, row, Share);
    CountSnoc(rows, row, Negative);
  }

  lemma AnchorsSnoc(rows: seq<Row>, row: Row)
    ensures CountAnchors(rows + [row]) == CountedAnchors(CountAnchors(rows), row.response)
  {
    CountSnoc(rows, row, AnchorImpression);
    CountSnoc(rows, row, AnchorClick);
    CountSnoc(rows, row, PoiDetail);
    CountSnoc(rows, row, PoiFavorite);
    CountSnoc(rows, row, Paid);
  }

  lemma ValueAllSnoc(rows: seq<Row>, row: Row)
    ensures var before, after, v := ValueAll(rows), ValueAll(rows + [row]), LtOf(row);
      after == LtValue(before.stay + v.stay, before.activeDays + v.activeDays,
                       before.commercialization + v.commercialization, before.total + v.total)
  {
    SumSnoc(rows, row, LtStay);
    SumSnoc(rows, row, LtActiveDays);
    SumSnoc(rows, row, LtCommercialization);
    SumSnoc(rows, row, LtTotal);
  }

  class Accumulator {
    var rows: seq<Row>
    var sessions: nat
    var returned: nat
    var views: Views
    var social: Social
    var anchors: Anchors
    var watchMinutes: real
    var stay: real
    var lt: LtValue

    function Contents(): Totals
      reads this
    {
      Totals(rows, sessions, returned, views, social, anchors, watchMinutes, stay, lt)
    }

    ghost predicate Valid()
      reads this
    {
      Contents() == Tally(rows)
    }

    constructor ()
      ensures Valid() && rows == []
    {
      rows, sessions, returned := [], 1, 0;
      views, social, anchors := Views(0, 0, 0, 0, 0), Social(0, 0, 0, 0, 0), Anchors(0, 0, 0, 0, 0);
      watchMinutes, stay, lt := 0.0, 0.0, LtValue(0.0, 0.0, 0.0, 0.0);
    }

    /** `_record_values`. */
    method RecordValues(ghost before: seq<Row>, row: Row)
      requires lt == ValueAll(before)
      modifies this`lt
      ensures lt == ValueAll(before + [row])
    {
      var value := Evaluate(row.response.watchMinutes, Flag(row.returned), 0.0);
      ValueAllSnoc(before, row);
      lt := LtValue(lt.stay + value.stay, lt.activeDays + value.activeDays,
                    lt.commercialization + value.commercialization, lt.total + value.total);
    }

    method RecordEngagement(ghost before: seq<Row>, row: Row)
      requires views == CountViews(before) && social == CountSocial(before) && anchors == CountAnchors(before)
      requires watchMinutes == Sum(before, Minutes) && stay == Sum(before, Stay)
      modifies this`views, this`social, this`anchors, this`watchMinutes, this`stay
      ensures views == CountViews(before + [row]) && social == CountSocial(before + [row])
      ensures anchors == CountAnchors(before + [row])
      ensures watchMinutes == Sum(before + [row], Minutes) && stay == Sum(before + [row], Stay)
    {
      hide CountViews, CountSocial, CountAnchors, Sum;
      ViewsSnoc(before, row);
      SocialSnoc(before, row);
      AnchorsSnoc(before, row);
      SumSnoc(before, row, Minutes);
      SumSnoc(before, row, Stay);
      watchMinutes := watchMinutes + row.response.watchMinutes;
      stay := stay + row.response.stay;
      views := CountedViews(views, row.response);
      social := CountedSocial(social, row.response);
      anchors := CountedAnchors(anchors, row.response);
    }

    /** `_record_step` once the environment has stepped. */
    method Record(row: Row)
      requires Valid()
      modifies this
      ensures Valid() && rows == old(rows) + [row]
    {
      hide CountViews, CountSocial, CountAnchors, ValueAll, Returned, Sum;
      ReturnedSnoc(rows, row);
      RecordEngagement(rows, row);
      RecordValues(rows, row);
      rows := rows + [row];
      if row.returned {
        returned := returned + 1;
        sessions := sessions + 1;
      }
    }

    /** `finish`. */
    method Finish() returns (t: Totals)
      ensures t == Contents()
    {
      t := Contents();
    }
  }

  // ---------------------------------------------------------------------------------------------
  // What totals of funnel-shaped exposures satisfy.

  lemma {:induction false} CountImplies(rows: seq<Row>, d: Event, e: Event)
    requires forall r :: r in rows && d.In(r.response) ==> e.In(r.response)
    ensures Count(rows, d) <= Count(rows, e) <= |rows|
  {
    if rows != [] {
      var front, last := rows[..|rows| - 1], rows[|rows| - 1];
      CountImplies(front, d, e);
      assert rows == front + [last];
      CountSnoc(front, last, d);
      CountSnoc(front, last, e);
    }
  }

  /** What every response of the environment satisfies. */
  predicate Funnel(r: Response) {
    && (r.play <==> r.play3s || r.slide) && !(r.play3s && r.slide)
    && (r.highQuality ==> r.longView) && (r.longView ==> r.play)
    && (r.payment ==> r.order) && (r.order || r.poiFavorite ==> r.poiDetail) && (r.poiDetail ==> r.anchorClick)
    && (r.anchorClick ==> r.anchorImpression)
    && r.stay == 60.0 * r.watchMinutes
  }

  lemma PlaysSplit(rows: seq<Row>)
    requires forall r :: r in rows ==> Funnel(r.response)
    ensures Count(rows, Play) == Count(rows, Play3s) + Count(rows, Slide)
  {
    FilterUnion(rows, (r: Row) => Play3s.In(r.response), (r: Row) => Slide.In(r.response),
                (r: Row) => Play.In(r.response));
  }

  lemma ViewTotals(rows: seq<Row>)
    requires forall r :: r in rows ==> Funnel(r.response)
    ensures var t := Tally(rows);
      && t.views.plays == t.views.play3s + t.views.slides
      && t.views.highQuality <= t.views.longViews <= t.views.plays <= |rows|
      && t.stay == 60.0 * t.watchMinutes
  {
    hide ValueAll, CountSocial, CountAnchors, Returned, Count;
    PlaysSplit(rows);
    CountImplies(rows, HighQuality, LongView);
    CountImplies(rows, LongView, Play);
    SumScale(rows, 60.0, Minutes, Stay);
  }

  lemma AnchorTotals(rows: seq<Row>)
    requires forall r :: r in rows ==> Funnel(r.response)
    ensures var a := Tally(rows).anchors;
      a.orders <= a.details && a.favorites <= a.details && a.details <= a.clicks <= a.impressions <= |rows|
  {
    hide ValueAll, CountSocial, CountViews, Returned, Count;
    CountImplies(rows, Paid, PoiDetail);
    CountImplies(rows, PoiFavorite, PoiDetail);
    CountImplies(rows, PoiDetail, AnchorClick);
    CountImplies(rows, AnchorClick, AnchorImpression);
  }

  lemma {:induction false} SumFlags(rows: seq<Row>)
    ensures Sum(rows, LtActiveDays) == ACTIVE_DAY * Returned(rows) as real
  {
    if rows != [] {
      SumFlags(rows[..|rows| - 1]);
    }
  }

  /** The value total is the sum of its components: one per watched minute and five per return. */
  lemma ValueTotals(rows: seq<Row>)
    ensures var t := Tally(rows);
      && t.lt.total == t.lt.stay + t.lt.activeDays + t.lt.commercialization
      && t.lt.total == t.watchMinutes + 5.0 * t.returned as real
  {
    var both := (r: Row) => LtStay(r) + LtActiveDays(r);
    SumAdd(rows, LtStay, LtActiveDays, both);
    SumAdd(rows, both, LtCommercialization, LtTotal);
    SumSame(rows, LtStay, Minutes);
    SumNonNegative(rows, LtCommercialization);
    SumFlags(rows);
  }
}
