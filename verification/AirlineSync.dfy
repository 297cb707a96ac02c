/** Folding a feed into the airline table (aviation/master_data/sync.py).

    `disk` is what the queries see: the rows as they were when the sync began, for
    the session does not flush on its own.  `rows` holds the session's view of
    those rows, followed by the rows it has added.  The lookup maps slugs and the
    aliases met so far to positions in `rows`.
 */
module AirlineSync {
  import opened Common
  import opened Identity
  import Slug

  type Lookup = map<string, nat>

  /** The counters of the loop; a merge that reports no change is counted nowhere. */
  datatype Stats = Stats(created: nat, updated: nat, skipped: nat)

  datatype State = State(rows: seq<RowData>, lookup: Lookup, stats: Stats)

  // ----- one record -----

  predicate Skipped(o: Offer) {
    o.name == "" || !o.active || o.slug == ""
  }

  /** Lookup first, then the queries; None means a new row. */
  function Resolve(disk: seq<RowData>, lookup: Lookup, o: Offer): Option<nat> {
    if o.slug in lookup then Some(lookup[o.slug])
    else SemanticMatch(disk, o.iata, o.icao, o.slug)
  }

  function Created(o: Offer, now: int): RowData {
    RowData("", o.name, o.slug, o.iata, o.icao, o.callsign,
            o.country, o.country, o.region, o.slug, o.allianceId, o.allianceCode, "canonical",
            Nested(Patch(o)), Confidence(0.9, 0.9, 1.0, 0.8), Some(now))
  }

  function SetDefault(lookup: Lookup, key: string, i: nat): Lookup {
    if key in lookup then lookup else lookup[key := i]
  }

  /** Every position the lookup or the table can give is a position of `rows`. */
  predicate Sized(disk: seq<RowData>, st: State) {
    |disk| <= |st.rows| && forall k | k in st.lookup :: st.lookup[k] < |st.rows|
  }

  function MergeInto(st: State, i: nat, o: Offer, now: int): State
    requires i < |st.rows|
  {
    var changed := if ReportsChange(st.rows[i], o) then 1 else 0;
    State(st.rows[i := Merged(st.rows[i], o, now)], SetDefault(st.lookup, o.slug, i),
          st.stats.(updated := st.stats.updated + changed))
  }

  function Add(st: State, o: Offer, now: int): State {
    State(st.rows + [Created(o, now)], st.lookup[o.slug := |st.rows|], st.stats.(created := st.stats.created + 1))
  }

  function Skip(st: State): State {
    st.(stats := st.stats.(skipped := st.stats.skipped + 1))
  }

  function Step(disk: seq<RowData>, st: State, o: Offer, now: int): (next: State)
    requires Sized(disk, st)
    ensures Sized(disk, next) && |next.rows| >= |st.rows|
  {
    if Skipped(o) then Skip(st)
    else match Resolve(disk, st.lookup, o)
      case Some(i) => MergeInto(st, i, o, now)
      case None => Add(st, o, now)
  }

  function SlugLookup(rows: seq<RowData>): Lookup {
    if rows == [] then map[] else SlugLookup(rows[..|rows| - 1])[rows[|rows| - 1].slug := |rows| - 1]
  }

  lemma {:induction false} SlugLookupNames(rows: seq<RowData>)
    ensures forall k | k in SlugLookup(rows) :: SlugLookup(rows)[k] < |rows| && rows[SlugLookup(rows)[k]].slug == k
    ensures forall i | 0 <= i < |rows| :: rows[i].slug in SlugLookup(rows)
    decreases |rows|
  {
    if rows != [] {
      SlugLookupNames(rows[..|rows| - 1]);
    }
  }

  function Start(disk: seq<RowData>): (st: State)
    ensures Sized(disk, st)
  {
    SlugLookupNames(disk);
    State(disk, SlugLookup(disk), Stats(0, 0, 0))
  }

  function Sync(disk: seq<RowData>, feed: seq<Offer>, now: int): (st: State)
    ensures Sized(disk, st)
    decreases |feed|
  {
    if feed == [] then Start(disk)
    else Step(disk, Sync(disk, feed[..|feed| - 1], now), feed[|feed| - 1], now)
  }

  // ----- what every step keeps -----

  predicate Distinct(rows: seq<RowData>) {
    forall i, j | 0 <= i < j < |rows| :: rows[i].slug != rows[j].slug
  }

  /** Every row's own slug leads to that row. */
  predicate Indexed(st: State) {
    forall i | 0 <= i < |st.rows| :: st.rows[i].slug in st.lookup && st.lookup[st.rows[i].slug] == i
  }

  /** The session's rows carry on the identities of the flushed ones. */
  predicate CarriesOn(disk: seq<RowData>, rows: seq<RowData>) {
    |disk| <= |rows| && forall i | 0 <= i < |disk| :: KeepsIdentity(disk[i], rows[i])
  }

  predicate Grows(disk: seq<RowData>, st: State, next: State) {
    && Indexed(next) && CarriesOn(disk, next.rows) && CarriesOn(st.rows, next.rows)
    && st.lookup.Keys <= next.lookup.Keys
  }

  lemma ReplaceKeepsIndex(disk: seq<RowData>, st: State, i: nat, y: RowData, key: string, stats: Stats)
    requires Sized(disk, st) && Indexed(st) && CarriesOn(disk, st.rows)
    requires i < |st.rows| && KeepsIdentity(st.rows[i], y)
    ensures Grows(disk, st, State(st.rows[i := y], SetDefault(st.lookup, key, i), stats))
  {
  }

  lemma AppendKeepsIndex(disk: seq<RowData>, st: State, y: RowData, stats: Stats)
    requires Sized(disk, st) && Indexed(st) && CarriesOn(disk, st.rows)
    requires y.slug !in st.lookup
    ensures Grows(disk, st, State(st.rows + [y], st.lookup[y.slug := |st.rows|], stats))
  {
  }

  lemma StepKeepsIndex(disk: seq<RowData>, st: State, o: Offer, now: int)
    requires Sized(disk, st) && Indexed(st) && CarriesOn(disk, st.rows)
    ensures Grows(disk, st, Step(disk, st, o, now))
    ensures !Skipped(o) ==> o.slug in Step(disk, st, o, now).lookup
  {
    var next := Step(disk, st, o, now);
    if !Skipped(o) {
      match Resolve(disk, st.lookup, o) {
        case Some(i) =>
          MergeIsNonDestructive(st.rows[i], o, now);
          ReplaceKeepsIndex(disk, st, i, Merged(st.rows[i], o, now), o.slug, next.stats);
        case None =>
          AppendKeepsIndex(disk, st, Created(o, now), next.stats);
      }
    }
  }

  /** Slugs stay pairwise distinct, the lookup leads every row's own slug to that
      row, and no row loses its identity. */
  lemma {:induction false} SyncInvariant(disk: seq<RowData>, feed: seq<Offer>, now: int)
    requires Distinct(disk)
    ensures var st := Sync(disk, feed, now);
            Distinct(st.rows) && Indexed(st) && CarriesOn(disk, st.rows)
    decreases |feed|
  {
    if feed == [] {
      StartIsIndexed(disk);
    } else {
      var pre := feed[..|feed| - 1];
      SyncInvariant(disk, pre, now);
      StepKeepsIndex(disk, Sync(disk, pre, now), feed[|feed| - 1], now);
      IndexedIsDistinct(Sync(disk, feed, now));
    }
  }

  /** A row of which nothing is known but its slug. */
  function BlankRow(slug: string): RowData {
    RowData("", "", slug, "", "", "", "", "", "", "", "", "", "", Missing, Confidence(0.0, 0.0, 0.0, 0.0), None)
  }

  /** Creating a row from a record is merging the record into a blank row. */
  lemma CreationIsAMerge(r: Record, now: int)
    requires !Skipped(OfferOf(r))
    ensures Created(OfferOf(r), now) == Merged(BlankRow(OfferOf(r).slug), OfferOf(r), now)
  {
    CleanedAreGiven(r);
    OfferIntoBlank(OfferOf(r), now);
  }

  lemma OfferIntoBlank(o: Offer, now: int)
    requires !Skipped(o) && (o.icao != "" ==> o.icaoGiven) && (o.callsign != "" ==> o.callsignGiven)
    ensures Created(o, now) == Merged(BlankRow(o.slug), o, now)
  {
  }

  /** A row made from a core airline needs no linking to it. */
  lemma BackfilledIsLinked(ca: Core, now: int)
    ensures WithCore(Backfilled(ca, now), ca) == Backfilled(ca, now)
    ensures ca.id != "" ==> Linked([Backfilled(ca, now)], ca)
  {
    assert [Backfilled(ca, now)][0].airlineId == ca.id;
  }

  /** The record is merged into a row and the merge reports no change. */
  predicate MergesSilently(disk: seq<RowData>, st: State, o: Offer)
    requires Sized(disk, st)
  {
    !Skipped(o) && match Resolve(disk, st.lookup, o)
    case Some(i) => !ReportsChange(st.rows[i], o)
    case None => false
  }

  function SilentMerges(disk: seq<RowData>, feed: seq<Offer>, now: int): nat {
    if feed == [] then 0
    else
      var pre, o := feed[..|feed| - 1], feed[|feed| - 1];
      SilentMerges(disk, pre, now) + if MergesSilently(disk, Sync(disk, pre, now), o) then 1 else 0
  }

  lemma StepCounts(disk: seq<RowData>, st: State, o: Offer, now: int)
    requires Sized(disk, st)
    ensures var next := Step(disk, st, o, now); var c, d := st.stats, next.stats;
            && d.created + d.updated + d.skipped
               == c.created + c.updated + c.skipped + (if MergesSilently(disk, st, o) then 0 else 1)
            && |next.rows| - |st.rows| == d.created - c.created
  {
    hide ReportsChange, Merged;
  }

  /** Every record but the silent merges is counted once, as created, updated or
      skipped; the table grows by the records counted as created. */
  lemma {:induction false} EveryRecordIsCounted(disk: seq<RowData>, feed: seq<Offer>, now: int)
    ensures var st := Sync(disk, feed, now);
            && st.stats.created + st.stats.updated + st.stats.skipped == |feed| - SilentMerges(disk, feed, now)
            && |st.rows| == |disk| + st.stats.created
    decreases |feed|
  {
    if feed != [] {
      var pre := feed[..|feed| - 1];
      EveryRecordIsCounted(disk, pre, now);
      StepCounts(disk, Sync(disk, pre, now), feed[|feed| - 1], now);
    }
  }

  lemma IndexedIsDistinct(st: State)
    requires Indexed(st)
    ensures Distinct(st.rows)
  {
  }

  lemma StartIsIndexed(disk: seq<RowData>)
    requires Distinct(disk)
    ensures Indexed(Start(disk))
  {
    SlugLookupNames(disk);
    forall i | 0 <= i < |disk| ensures SlugLookup(disk)[disk[i].slug] == i {
      var j := SlugLookup(disk)[disk[i].slug];
      assert disk[j].slug == disk[i].slug;
    }
  }

  // ----- what a record of the feed leaves in the table -----

  function Offers(feed: seq<Record>): seq<Offer> {
    if feed == [] then [] else Offers(feed[..|feed| - 1]) + [OfferOf(feed[|feed| - 1])]
  }

  lemma OffersStep(disk: seq<RowData>, feed: seq<Record>, r: Record, now: int)
    ensures Sync(disk, Offers(feed + [r]), now) == Step(disk, Sync(disk, Offers(feed), now), OfferOf(r), now)
  {
    hide OfferOf, Step;
    assert (feed + [r])[..|feed|] == feed;
    assert (Offers(feed) + [OfferOf(r)])[..|Offers(feed)|] == Offers(feed);
  }

  /** The record is of no use: no name, not active, or a name without a letter or digit. */
  predicate Useless(r: Record) {
    r.name == "" || !r.active || Slug.NormalizeAirlineSlug(r.name) == ""
  }

  /** The codes that the texts of a record stand for. */
  ghost predicate CodesOf(r: Record, iata: string, icao: string) {
    ReadsAs(r.iata, iata, 2, 2) && ReadsAs(r.icao, icao, 2, 4)
  }

  /** The row the record is merged into: the one its slug leads to, else the first
      flushed row with its IATA code, else with its ICAO code, else with its name. */
  ghost predicate Chosen(disk: seq<RowData>, before: State, r: Record, i: nat) {
    var slug := Slug.NormalizeAirlineSlug(r.name);
    if slug in before.lookup then i == before.lookup[slug]
    else exists iata, icao :: CodesOf(r, iata, icao) && FirstMatch(disk, iata, icao, slug, i)
  }

  /** No row is there for the record. */
  ghost predicate Unknown(disk: seq<RowData>, before: State, r: Record) {
    var slug := Slug.NormalizeAirlineSlug(r.name);
    slug !in before.lookup && exists iata, icao :: CodesOf(r, iata, icao) && NoMatch(disk, iata, icao, slug)
  }

  ghost predicate Recorded(disk: seq<RowData>, before: State, r: Record, now: int, after: State) {
    if Useless(r) then after == before.(stats := before.stats.(skipped := before.stats.skipped + 1))
    else if Unknown(disk, before, r) then AddedFor(before, r, now, after)
    else exists i: nat :: i < |before.rows| && MergedAt(disk, before, r, now, after, i)
  }

  ghost predicate AddedFor(before: State, r: Record, now: int, after: State) {
    var slug, n := Slug.NormalizeAirlineSlug(r.name), |before.rows|;
    && |after.rows| == n + 1 && after.rows == before.rows + [after.rows[n]]
    && Landed(BlankRow(slug), r, now, after.rows[n])
    && after.lookup == before.lookup[slug := n]
    && after.stats == before.stats.(created := before.stats.created + 1)
  }

  ghost predicate MergedAt(disk: seq<RowData>, before: State, r: Record, now: int, after: State, i: nat)
    requires i < |before.rows|
  {
    var slug := Slug.NormalizeAirlineSlug(r.name);
    && |after.rows| == |before.rows| && after.rows == before.rows[i := after.rows[i]]
    && Chosen(disk, before, r, i) && Landed(before.rows[i], r, now, after.rows[i])
    && after.lookup == (if slug in before.lookup then before.lookup else before.lookup[slug := i])
    && after.stats.(updated := 0) == before.stats.(updated := 0)
    && after.stats.updated - before.stats.updated in {0, 1}
  }

  lemma OfferedCodes(r: Record, iata: string, icao: string)
    ensures CodesOf(r, iata, icao) <==> iata == OfferOf(r).iata && icao == OfferOf(r).icao
  {
    hide NormalizeCode, ReadsAs, Slug.NormalizeAirlineSlug, CleanCallsign;
    CodeIsReading(r.iata, iata, 2, 2);
    CodeIsReading(r.icao, icao, 2, 4);
  }

  lemma RecordChooses(disk: seq<RowData>, st: State, r: Record)
    requires Sized(disk, st) && !Useless(r)
    ensures var m := Resolve(disk, st.lookup, OfferOf(r));
            if m.Some? then Chosen(disk, st, r, m.value) && !Unknown(disk, st, r) else Unknown(disk, st, r)
  {
    var o, m := OfferOf(r), Resolve(disk, st.lookup, OfferOf(r));
    assert o.slug == Slug.NormalizeAirlineSlug(r.name) != "";
    SemanticMatchIsFirst(disk, o.iata, o.icao, o.slug);
    hide OfferOf, Slug.NormalizeAirlineSlug, SemanticMatch, FirstMatch, NoMatch, CodesOf;
    OfferedCodes(r, o.iata, o.icao);
    if iata, icao :| CodesOf(r, iata, icao) && NoMatch(disk, iata, icao, o.slug) {
      OfferedCodes(r, iata, icao);
      if m.Some? && o.slug !in st.lookup {
        NotBoth(disk, iata, icao, o.slug, m.value);
      }
    }
  }

  lemma NotBoth(disk: seq<RowData>, iata: string, icao: string, key: string, i: nat)
    ensures !(FirstMatch(disk, iata, icao, key, i) && NoMatch(disk, iata, icao, key))
  {
    hide NormalizedKey;
  }

  lemma StepOfRecord(disk: seq<RowData>, st: State, r: Record, now: int)
    requires Sized(disk, st)
    ensures var o, next := OfferOf(r), Step(disk, st, OfferOf(r), now);
            var m := Resolve(disk, st.lookup, o);
            && (Skipped(o) <==> Useless(r))
            && (Skipped(o) ==> next == Skip(st))
            && (!Skipped(o) && m.Some? ==> next == MergeInto(st, m.value, o, now))
            && (!Skipped(o) && m.None? ==> next == Add(st, o, now))
            && o.slug == Slug.NormalizeAirlineSlug(r.name)
  {
    hide Resolve, Merged, Created, ReportsChange, Slug.NormalizeAirlineSlug, NormalizeCode, CleanCallsign;
  }

  lemma StepRecords(disk: seq<RowData>, st: State, r: Record, now: int)
    requires Sized(disk, st)
    ensures Recorded(disk, st, r, now, Step(disk, st, OfferOf(r), now))
  {
    var o, next := OfferOf(r), Step(disk, st, OfferOf(r), now);
    var m := Resolve(disk, st.lookup, o);
    StepOfRecord(disk, st, r, now);
    if Useless(r) {
      hide Step, OfferOf, Resolve, Useless;
    } else {
      RecordChooses(disk, st, r);
      if m.Some? {
        hide *;
        MergeLands(st.rows[m.value], r, now);
        RecordedAt(disk, st, r, now, m.value);
      } else {
        hide *;
        CreationIsAMerge(r, now);
        MergeLands(BlankRow(o.slug), r, now);
        RecordedNew(disk, st, r, now);
      }
    }
  }

  lemma MergeIntoIs(st: State, i: nat, o: Offer, now: int)
    requires i < |st.rows|
    ensures var next := MergeInto(st, i, o, now);
            && next.rows == st.rows[i := Merged(st.rows[i], o, now)]
            && next.lookup == (if o.slug in st.lookup then st.lookup else st.lookup[o.slug := i])
            && next.stats.(updated := 0) == st.stats.(updated := 0)
            && next.stats.updated - st.stats.updated in {0, 1}
  {
    hide Merged, ReportsChange;
  }

  lemma AddIs(st: State, o: Offer, now: int)
    ensures var next := Add(st, o, now);
            && next.rows == st.rows + [Created(o, now)] && next.lookup == st.lookup[o.slug := |st.rows|]
            && next.stats == st.stats.(created := st.stats.created + 1)
  {
    hide Created;
  }

  lemma SlugOffered(r: Record)
    ensures OfferOf(r).slug == Slug.NormalizeAirlineSlug(r.name)
  {
  }

  lemma RecordedNew(disk: seq<RowData>, st: State, r: Record, now: int)
    requires !Useless(r) && Unknown(disk, st, r)
    requires Landed(BlankRow(Slug.NormalizeAirlineSlug(r.name)), r, now, Created(OfferOf(r), now))
    ensures Recorded(disk, st, r, now, Add(st, OfferOf(r), now))
  {
    var next, y := Add(st, OfferOf(r), now), Created(OfferOf(r), now);
    hide *;
    SlugOffered(r);
    AddIs(st, OfferOf(r), now);
    assert next.rows[|st.rows|] == y;
    AddedIs(disk, st, r, now, next);
  }

  lemma AddedIs(disk: seq<RowData>, st: State, r: Record, now: int, next: State)
    requires !Useless(r) && Unknown(disk, st, r)
    requires |next.rows| == |st.rows| + 1 && next.rows == st.rows + [next.rows[|st.rows|]]
    requires Landed(BlankRow(Slug.NormalizeAirlineSlug(r.name)), r, now, next.rows[|st.rows|])
    requires next.lookup == st.lookup[Slug.NormalizeAirlineSlug(r.name) := |st.rows|]
    requires next.stats == st.stats.(created := st.stats.created + 1)
    ensures Recorded(disk, st, r, now, next)
  {
    hide Landed, Unknown, Useless, BlankRow, Slug.NormalizeAirlineSlug;
  }

  lemma RecordedAt(disk: seq<RowData>, st: State, r: Record, now: int, i: nat)
    requires !Useless(r) && !Unknown(disk, st, r) && i < |st.rows|
    requires Chosen(disk, st, r, i) && Landed(st.rows[i], r, now, Merged(st.rows[i], OfferOf(r), now))
    ensures Recorded(disk, st, r, now, MergeInto(st, i, OfferOf(r), now))
  {
    var next, y := MergeInto(st, i, OfferOf(r), now), Merged(st.rows[i], OfferOf(r), now);
    hide *;
    SlugOffered(r);
    MergeIntoIs(st, i, OfferOf(r), now);
    assert next.rows[i] == y;
    MergedIs(disk, st, r, now, next, i);
  }

  lemma MergedIs(disk: seq<RowData>, st: State, r: Record, now: int, next: State, i: nat)
    requires !Useless(r) && !Unknown(disk, st, r) && i < |st.rows|
    requires |next.rows| == |st.rows| && next.rows == st.rows[i := next.rows[i]]
    requires Chosen(disk, st, r, i) && Landed(st.rows[i], r, now, next.rows[i])
    requires var slug := Slug.NormalizeAirlineSlug(r.name);
             next.lookup == if slug in st.lookup then st.lookup else st.lookup[slug := i]
    requires next.stats.(updated := 0) == st.stats.(updated := 0)
    requires next.stats.updated - st.stats.updated in {0, 1}
    ensures Recorded(disk, st, r, now, next)
  {
    hide Landed, Chosen, Unknown, Useless, Slug.NormalizeAirlineSlug;
    assert MergedAt(disk, st, r, now, next, i);
  }

  /** Every record of a feed does to the table what its own texts call for. */
  lemma EveryRecordLands(disk: seq<RowData>, feed: seq<Record>, r: Record, now: int)
    ensures Recorded(disk, Sync(disk, Offers(feed), now), r, now, Sync(disk, Offers(feed + [r]), now))
  {
    hide *;
    OffersStep(disk, feed, r, now);
    StepRecords(disk, Sync(disk, Offers(feed), now), r, now);
  }

  /** Each record in its turn. */
  ghost predicate FeedRecorded(disk: seq<RowData>, feed: seq<Record>, now: int) {
    forall k | 0 <= k < |feed| ::
      Recorded(disk, Sync(disk, Offers(feed[..k]), now), feed[k], now, Sync(disk, Offers(feed[..k + 1]), now))
  }

  lemma FeedLands(disk: seq<RowData>, feed: seq<Record>, now: int)
    ensures FeedRecorded(disk, feed, now)
  {
    hide *;
    FeedLandsEach(disk, feed, now);
    FeedRecordedIs(disk, feed, now);
  }

  lemma FeedLandsEach(disk: seq<RowData>, feed: seq<Record>, now: int)
    ensures forall k | 0 <= k < |feed| ::
      Recorded(disk, Sync(disk, Offers(feed[..k]), now), feed[k], now, Sync(disk, Offers(feed[..k + 1]), now))
  {
    hide *;
    forall k | 0 <= k < |feed|
      ensures Recorded(disk, Sync(disk, Offers(feed[..k]), now), feed[k], now, Sync(disk, Offers(feed[..k + 1]), now))
    {
      EveryRecordLands(disk, feed[..k], feed[k], now);
      assert feed[..k] + [feed[k]] == feed[..k + 1];
    }
  }

  lemma FeedRecordedIs(disk: seq<RowData>, feed: seq<Record>, now: int)
    requires forall k | 0 <= k < |feed| ::
      Recorded(disk, Sync(disk, Offers(feed[..k]), now), feed[k], now, Sync(disk, Offers(feed[..k + 1]), now))
    ensures FeedRecorded(disk, feed, now)
  {
    hide Recorded, Sync, Offers;
  }

  /** A plain code, trimmed and in upper case, is stored as it is by a first sync. */
  lemma PlainCodesAreStored(r: Record, now: int)
    requires !Useless(r)
    ensures var rows := Sync([], Offers([r]), now).rows;
            && |rows| == 1
            && (PlainCode(r.iata, 2, 2) ==> rows[0].iata == r.iata)
            && (PlainCode(r.icao, 2, 4) ==> rows[0].icao == r.icao)
  {
    var before, after := Sync([], Offers([]), now), Sync([], Offers([r]), now);
    assert [] + [r] == [r];
    EveryRecordLands([], [], r, now);
    assert before == Start([]) && before.lookup == map[] && before.rows == [];
    UnknownAtFirst(before, r);
    hide Useless, Unknown, Sync, ReadsAs, PlainCode, NormalizeCode;
    var y := after.rows[0];
    PlainCodeReads(r.iata, 2, 2);
    PlainCodeReads(r.icao, 2, 4);
    CodeIsReading(r.iata, r.iata, 2, 2);
    CodeIsReading(r.iata, y.iata, 2, 2);
    CodeIsReading(r.icao, r.icao, 2, 4);
    CodeIsReading(r.icao, y.icao, 2, 4);
  }

  lemma UnknownAtFirst(before: State, r: Record)
    requires before.lookup == map[]
    ensures Unknown([], before, r)
  {
    OfferedCodes(r, OfferOf(r).iata, OfferOf(r).icao);
    assert NoMatch([], OfferOf(r).iata, OfferOf(r).icao, Slug.NormalizeAirlineSlug(r.name));
    hide CodesOf, OfferOf, Slug.NormalizeAirlineSlug;
  }

  // ----- running the same feed again -----

  /** `later` is any table that still has every row of `rows`, identities intact:
      in any order, with gaps filled and with further rows. */
  ghost predicate Survives(rows: seq<RowData>, later: seq<RowData>) {
    forall i | 0 <= i < |rows| :: HasHeir(rows[i], later)
  }

  ghost predicate HasHeir(x: RowData, later: seq<RowData>) {
    exists j :: 0 <= j < |later| && KeepsIdentity(x, later[j])
  }

  lemma CarriedSurvives(rows: seq<RowData>, later: seq<RowData>)
    requires CarriesOn(rows, later)
    ensures Survives(rows, later)
  {
    forall i | 0 <= i < |rows| ensures HasHeir(rows[i], later) {
      assert KeepsIdentity(rows[i], later[i]);
    }
  }

  lemma SlugsAreKeys(disk: seq<RowData>, i: nat)
    requires i < |disk|
    ensures disk[i].slug in SlugLookup(disk)
  {
    SlugLookupNames(disk);
  }

  lemma {:induction false} LookupGrows(disk: seq<RowData>, feed: seq<Offer>, now: int, key: string)
    requires key in SlugLookup(disk)
    ensures key in Sync(disk, feed, now).lookup
    decreases |feed|
  {
    if feed != [] {
      LookupGrows(disk, feed[..|feed| - 1], now, key);
    }
  }

  /** What the second run's lookup knows at any point of the feed includes what the
      first run's did, and the second run creates no row. */
  lemma {:induction false} SecondSyncFollows(disk: seq<RowData>, later: seq<RowData>, feed: seq<Offer>,
                                             done: seq<RowData>, now: int, now': int)
    requires Distinct(disk) && Survives(done, later)
    requires CarriesOn(Sync(disk, feed, now).rows, done)
    ensures Sync(disk, feed, now).lookup.Keys <= Sync(later, feed, now').lookup.Keys
    ensures Sync(later, feed, now').stats.created == 0
    decreases |feed|
  {
    if feed == [] {
      forall k | k in SlugLookup(disk) ensures k in SlugLookup(later) {
        SlugLookupNames(disk);
        OldSlugIsKey(disk, later, done, SlugLookup(disk)[k]);
      }
    } else {
      var pre, o := feed[..|feed| - 1], feed[|feed| - 1];
      var st, st' := Sync(disk, pre, now), Sync(later, pre, now');
      SyncInvariant(disk, pre, now);
      StepKeepsIndex(disk, st, o, now);
      CarryChain(st.rows, Sync(disk, feed, now).rows, done);
      SecondSyncFollows(disk, later, pre, done, now, now');
      if !Skipped(o) {
        RecordResolvesAgain(disk, later, pre, o, done, now, now');
      }
    }
  }

  lemma CarryChain(a: seq<RowData>, b: seq<RowData>, c: seq<RowData>)
    requires CarriesOn(a, b) && CarriesOn(b, c)
    ensures CarriesOn(a, c)
  {
  }

  lemma OldSlugIsKey(rows: seq<RowData>, later: seq<RowData>, done: seq<RowData>, i: nat)
    requires CarriesOn(rows, done) && Survives(done, later) && i < |rows|
    ensures rows[i].slug in SlugLookup(later)
  {
    assert KeepsIdentity(rows[i], done[i]) && HasHeir(done[i], later);
    var j :| 0 <= j < |later| && KeepsIdentity(done[i], later[j]);
    SlugsAreKeys(later, j);
  }

  lemma RecordResolvesAgain(disk: seq<RowData>, later: seq<RowData>, pre: seq<Offer>, o: Offer,
                            done: seq<RowData>, now: int, now': int)
    requires Distinct(disk) && Survives(done, later) && !Skipped(o)
    requires CarriesOn(Step(disk, Sync(disk, pre, now), o, now).rows, done)
    requires Sync(disk, pre, now).lookup.Keys <= Sync(later, pre, now').lookup.Keys
    ensures Resolve(later, Sync(later, pre, now').lookup, o).Some?
  {
    var st := Sync(disk, pre, now);
    var next := Step(disk, st, o, now);
    SyncInvariant(disk, pre, now);
    StepKeepsIndex(disk, st, o, now);
    SemanticMatchFinds(disk, o.iata, o.icao, o.slug);
    SemanticMatchFinds(later, o.iata, o.icao, o.slug);
    if o.slug !in st.lookup {
      var m := SemanticMatch(disk, o.iata, o.icao, o.slug);
      if m.Some? {
        assert KeepsIdentity(disk[m.value], next.rows[m.value]) && KeepsIdentity(next.rows[m.value], done[m.value]);
        assert HasHeir(done[m.value], later);
        var j :| 0 <= j < |later| && KeepsIdentity(done[m.value], later[j]);
        KeptIdentityStillMatches(disk[m.value], later[j], o.iata, o.icao, o.slug);
      } else {
        OldSlugIsKey(next.rows, later, done, |st.rows|);
        LookupGrows(later, pre, now', o.slug);
      }
    }
  }

  /** Syncing the same feed again, over any table in which the rows of the first
      sync survive, creates no row. */
  lemma SecondSyncCreatesNothing(disk: seq<RowData>, later: seq<RowData>, feed: seq<Offer>, now: int, now': int)
    requires Distinct(disk) && Survives(Sync(disk, feed, now).rows, later)
    ensures Sync(later, feed, now').stats.created == 0
    ensures |Sync(later, feed, now').rows| == |later|
  {
    SecondSyncFollows(disk, later, feed, Sync(disk, feed, now).rows, now, now');
    EveryRecordIsCounted(later, feed, now');
  }

  // ----- codes -----

  /** No two rows share an IATA code. */
  predicate CodesDistinct(rows: seq<RowData>) {
    forall i, j | 0 <= i < j < |rows| :: rows[i].iata != "" ==> rows[i].iata != rows[j].iata
  }

  predicate Holds(rows: seq<RowData>, iata: string) {
    exists i :: 0 <= i < |rows| && rows[i].iata == iata
  }

  /** The record's code goes to a row that has none while another row has it. */
  predicate DuplicatesCode(disk: seq<RowData>, st: State, o: Offer)
    requires Sized(disk, st)
  {
    && !Skipped(o) && o.iata != "" && Holds(st.rows, o.iata)
    && var m := Resolve(disk, st.lookup, o);
       m.None? || st.rows[m.value].iata == ""
  }

  /** One record keeps the codes distinct exactly when it duplicates none. */
  lemma StepKeepsCodesExactlyWhen(disk: seq<RowData>, st: State, o: Offer, now: int)
    requires Sized(disk, st)
    ensures CodesDistinct(Step(disk, st, o, now).rows) <==>
            CodesDistinct(st.rows) && !DuplicatesCode(disk, st, o)
  {
    if !Skipped(o) {
      match Resolve(disk, st.lookup, o) {
        case Some(i) => FillKeepsCodes(st.rows, i, Merged(st.rows[i], o, now), o.iata);
        case None => AppendKeepsCodes(st.rows, Created(o, now));
      }
    }
  }

  lemma FillKeepsCodes(rows: seq<RowData>, i: nat, y: RowData, iata: string)
    requires i < |rows| && y.iata == FillGap(rows[i].iata, iata)
    ensures CodesDistinct(rows[i := y]) <==>
            CodesDistinct(rows) && !(rows[i].iata == "" != iata && Holds(rows, iata))
  {
    var r := rows[i := y];
    if CodesDistinct(r) {
      forall j, k | 0 <= j < k < |rows| ensures rows[j].iata != "" ==> rows[j].iata != rows[k].iata {
        assert r[j].iata != "" ==> r[j].iata != r[k].iata;
      }
      forall j | 0 <= j < |rows| ensures !(rows[i].iata == "" != iata && rows[j].iata == iata) {
        if j < i {
          assert r[j].iata != "" ==> r[j].iata != r[i].iata;
        } else if i < j {
          assert r[i].iata != "" ==> r[i].iata != r[j].iata;
        }
      }
    } else if CodesDistinct(rows) {
      var j, k :| 0 <= j < k < |r| && r[j].iata != "" && r[j].iata == r[k].iata;
      assert rows[if j == i then k else j].iata == r[j].iata;
    }
  }

  lemma AppendKeepsCodes(rows: seq<RowData>, y: RowData)
    ensures CodesDistinct(rows + [y]) <==> CodesDistinct(rows) && !(y.iata != "" && Holds(rows, y.iata))
  {
    var r := rows + [y];
    if CodesDistinct(r) {
      forall j, k | 0 <= j < k < |rows| ensures rows[j].iata != "" ==> rows[j].iata != rows[k].iata {
        assert r[j].iata != "" ==> r[j].iata != r[k].iata;
      }
      forall j | 0 <= j < |rows| ensures y.iata != "" ==> rows[j].iata != y.iata {
        assert r[j].iata != "" ==> r[j].iata != r[|rows|].iata;
      }
    }
  }

  predicate DuplicatesAt(disk: seq<RowData>, feed: seq<Offer>, now: int, k: nat)
    requires k < |feed|
  {
    DuplicatesCode(disk, Sync(disk, feed[..k], now), feed[k])
  }

  /** A sync ends with distinct codes exactly when it starts with them and no record
      of the feed duplicates one. */
  lemma {:induction false} SyncKeepsCodesExactlyWhen(disk: seq<RowData>, feed: seq<Offer>, now: int)
    ensures CodesDistinct(Sync(disk, feed, now).rows) <==>
            CodesDistinct(disk) && forall k | 0 <= k < |feed| :: !DuplicatesAt(disk, feed, now, k)
    decreases |feed|
  {
    if feed == [] {
      assert Sync(disk, feed, now) == Start(disk);
    } else {
      var pre, o := feed[..|feed| - 1], feed[|feed| - 1];
      assert Sync(disk, feed, now) == Step(disk, Sync(disk, pre, now), o, now);
      assert DuplicatesAt(disk, feed, now, |pre|) == DuplicatesCode(disk, Sync(disk, pre, now), o);
      SyncKeepsCodesExactlyWhen(disk, pre, now);
      StepKeepsCodesExactlyWhen(disk, Sync(disk, pre, now), o, now);
      forall k | 0 <= k < |pre| ensures DuplicatesAt(disk, feed, now, k) == DuplicatesAt(disk, pre, now, k) {
        assert pre[..k] == feed[..k];
        hide DuplicatesCode, Sync;
      }
      hide *;
    }
  }

  lemma FlushedCodeIsFound(disk: seq<RowData>, st: State, o: Offer)
    requires Sized(disk, st) && CarriesOn(disk, st.rows) && DuplicatesCode(disk, st, o)
    ensures o.slug in st.lookup || !Holds(disk, o.iata)
  {
    if o.slug !in st.lookup && Holds(disk, o.iata) {
      CodesGoFirst(disk, o.iata, o.icao, o.slug);
      SemanticMatchFinds(disk, o.iata, o.icao, o.slug);
    }
  }

  /** In any run a code of the flushed table is duplicated only by way of the slug:
      without a match there the queries find the row that has it. */
  lemma FlushedCodesAreFound(disk: seq<RowData>, feed: seq<Offer>, now: int, k: nat)
    requires Distinct(disk) && k < |feed| && DuplicatesAt(disk, feed, now, k) && Holds(disk, feed[k].iata)
    ensures feed[k].slug in Sync(disk, feed[..k], now).lookup
  {
    SyncInvariant(disk, feed[..k], now);
    FlushedCodeIsFound(disk, Sync(disk, feed[..k], now), feed[k]);
  }

  /** That does happen: the slug's row has no code yet, and another row has it. */
  lemma SlugMatchDuplicates(x: RowData, y: RowData, o: Offer, now: int)
    requires !Skipped(o) && x.slug == o.slug != y.slug && x.iata == "" != o.iata && y.iata == o.iata
    ensures CodesDistinct([x, y]) && !CodesDistinct(Sync([x, y], [o], now).rows)
  {
    var disk, st := [x, y], Start([x, y]);
    SyncOne(disk, o, now);
    SlugLookupNames(disk);
    assert disk[0].slug in SlugLookup(disk) && SlugLookup(disk)[o.slug] == 0;
    MergeKeepsSlug(x, o, now);
    var next := Step(disk, st, o, now);
    assert next.rows[0].iata == next.rows[1].iata == o.iata;
  }

  /** The code a slug has after a first sync: the first one any of its records gives. */
  function FirstCode(feed: seq<Offer>, slug: string): string {
    if feed == [] then ""
    else
      var pre, o := feed[..|feed| - 1], feed[|feed| - 1];
      FillGap(FirstCode(pre, slug), if !Skipped(o) && o.slug == slug then o.iata else "")
  }

  predicate HasSlug(feed: seq<Offer>, slug: string) {
    exists k :: 0 <= k < |feed| && !Skipped(feed[k]) && feed[k].slug == slug
  }

  lemma HasSlugStep(feed: seq<Offer>, slug: string)
    requires feed != []
    ensures var pre, o := feed[..|feed| - 1], feed[|feed| - 1];
            HasSlug(feed, slug) <==> HasSlug(pre, slug) || (!Skipped(o) && o.slug == slug)
  {
    var pre, o := feed[..|feed| - 1], feed[|feed| - 1];
    if k :| 0 <= k < |pre| && !Skipped(pre[k]) && pre[k].slug == slug {
      assert feed[k] == pre[k];
    }
  }

  /** Every slug met so far has its row, with its first code. */
  ghost predicate BySlug(feed: seq<Offer>, st: State) {
    && (forall s :: s in st.lookup <==> HasSlug(feed, s))
    && (forall s | s in st.lookup :: st.lookup[s] < |st.rows| && st.rows[st.lookup[s]].slug == s)
    && (forall i | 0 <= i < |st.rows| :: st.rows[i].iata == FirstCode(feed, st.rows[i].slug))
  }

  lemma {:induction false} NoRecordNoCode(feed: seq<Offer>, slug: string)
    ensures !HasSlug(feed, slug) ==> FirstCode(feed, slug) == ""
  {
    if feed != [] {
      HasSlugStep(feed, slug);
      NoRecordNoCode(feed[..|feed| - 1], slug);
    }
  }

  /** Into an empty table records are resolved by slug alone. */
  lemma {:induction false} FirstSyncGoesBySlug(feed: seq<Offer>, now: int)
    ensures Indexed(Sync([], feed, now)) && BySlug(feed, Sync([], feed, now))
    decreases |feed|
  {
    if feed != [] {
      var pre, o := feed[..|feed| - 1], feed[|feed| - 1];
      assert Sync([], feed, now) == Step([], Sync([], pre, now), o, now);
      FirstSyncGoesBySlug(pre, now);
      StepKeepsIndex([], Sync([], pre, now), o, now);
      hide *;
      StepGoesBySlug(feed, Sync([], pre, now), now);
    }
  }

  lemma StepGoesBySlug(feed: seq<Offer>, st: State, now: int)
    requires feed != [] && Sized([], st) && Indexed(st) && BySlug(feed[..|feed| - 1], st)
    ensures BySlug(feed, Step([], st, feed[|feed| - 1], now))
  {
    var o := feed[|feed| - 1];
    if Skipped(o) {
      forall s ensures HasSlug(feed, s) <==> HasSlug(feed[..|feed| - 1], s) {
        HasSlugStep(feed, s);
      }
      hide HasSlug, ReportsChange, Merged;
    } else if o.slug in st.lookup {
      var i := st.lookup[o.slug];
      MergeKeepsSlug(st.rows[i], o, now);
      MergeGoesBySlug(feed, st, Step([], st, o, now));
    } else {
      AddGoesBySlug(feed, st, Step([], st, o, now));
    }
  }

  lemma MergeGoesBySlug(feed: seq<Offer>, st: State, next: State)
    requires feed != [] && Sized([], st) && Indexed(st) && BySlug(feed[..|feed| - 1], st)
    requires var o := feed[|feed| - 1];
             && !Skipped(o) && o.slug in st.lookup && next.lookup == st.lookup && |next.rows| == |st.rows|
             && var i := st.lookup[o.slug];
                && next.rows == st.rows[i := next.rows[i]] && next.rows[i].slug == st.rows[i].slug
                && next.rows[i].iata == FillGap(st.rows[i].iata, o.iata)
    ensures BySlug(feed, next)
  {
    var pre, o := feed[..|feed| - 1], feed[|feed| - 1];
    hide HasSlug, Skipped;
    forall s ensures s in next.lookup <==> HasSlug(feed, s) {
      HasSlugStep(feed, s);
    }
    forall j | 0 <= j < |next.rows| ensures next.rows[j].iata == FirstCode(feed, next.rows[j].slug) {
      assert st.rows[j].slug == next.rows[j].slug && st.rows[j].iata == FirstCode(pre, st.rows[j].slug);
      assert j == st.lookup[o.slug] <==> st.rows[j].slug == o.slug;
    }
  }

  lemma AddGoesBySlug(feed: seq<Offer>, st: State, next: State)
    requires feed != [] && Sized([], st) && Indexed(st) && BySlug(feed[..|feed| - 1], st)
    requires var o := feed[|feed| - 1];
             && !Skipped(o) && o.slug !in st.lookup && |next.rows| == |st.rows| + 1
             && next.lookup == st.lookup[o.slug := |st.rows|] && next.rows[..|st.rows|] == st.rows
             && next.rows[|st.rows|].slug == o.slug && next.rows[|st.rows|].iata == o.iata
    ensures BySlug(feed, next)
  {
    var pre, o, n := feed[..|feed| - 1], feed[|feed| - 1], |st.rows|;
    NoRecordNoCode(pre, o.slug);
    assert forall j | 0 <= j < n :: next.rows[j] == next.rows[..n][j] == st.rows[j];
    hide HasSlug, Skipped;
    forall s ensures s in next.lookup <==> HasSlug(feed, s) {
      HasSlugStep(feed, s);
    }
    forall j | 0 <= j < |next.rows| ensures next.rows[j].iata == FirstCode(feed, next.rows[j].slug) {
      if j < n {
        assert st.rows[j].slug != o.slug && st.rows[j].iata == FirstCode(pre, st.rows[j].slug);
      }
    }
    hide *;
    AllBySlug(feed, next);
  }

  lemma AllBySlug(feed: seq<Offer>, st: State)
    requires forall s :: s in st.lookup <==> HasSlug(feed, s)
    requires forall s | s in st.lookup :: st.lookup[s] < |st.rows| && st.rows[st.lookup[s]].slug == s
    requires forall i | 0 <= i < |st.rows| :: st.rows[i].iata == FirstCode(feed, st.rows[i].slug)
    ensures BySlug(feed, st)
  {
    hide HasSlug, FirstCode;
  }

  lemma MergeKeepsSlug(x: RowData, o: Offer, now: int)
    ensures Merged(x, o, now).slug == x.slug && Merged(x, o, now).iata == FillGap(x.iata, o.iata)
  {
    hide ReportsChange, Patch;
  }

  /** A first sync keeps the codes distinct exactly when different slugs of its feed
      have different first codes. */
  lemma FirstSyncKeepsCodesExactlyWhen(feed: seq<Offer>, now: int)
    ensures CodesDistinct(Sync([], feed, now).rows) <==>
            forall s, s' | HasSlug(feed, s) && HasSlug(feed, s') && s != s' ::
              FirstCode(feed, s) != "" ==> FirstCode(feed, s) != FirstCode(feed, s')
  {
    var st := Sync([], feed, now);
    FirstSyncGoesBySlug(feed, now);
    hide Sync, HasSlug, FirstCode;
    assert forall i | 0 <= i < |st.rows| :: HasSlug(feed, st.rows[i].slug);
    if CodesDistinct(st.rows) {
      forall s, s' | HasSlug(feed, s) && HasSlug(feed, s') && s != s'
        ensures FirstCode(feed, s) != "" ==> FirstCode(feed, s) != FirstCode(feed, s')
      {
        var i, j := st.lookup[s], st.lookup[s'];
        assert st.rows[i].slug == s && st.rows[j].slug == s' && i != j;
      }
    } else {
      var i, j :| 0 <= i < j < |st.rows| && st.rows[i].iata != "" && st.rows[i].iata == st.rows[j].iata;
      var s, s' := st.rows[i].slug, st.rows[j].slug;
      assert s != s' && FirstCode(feed, s) == FirstCode(feed, s');
    }
  }

  /** Two names of one airline become two rows when they come in one feed, for the
      queries do not see the first row yet, and one when they come in two. */
  lemma PendingRowsAreNotSeen(a: Offer, b: Offer, now: int)
    requires !Skipped(a) && !Skipped(b) && a.slug != b.slug && a.iata == b.iata != ""
    ensures var together := Sync([], [a, b], now).rows;
            |together| == 2 && together[0].iata == together[1].iata == a.iata
    ensures var apart := Sync(Sync([], [a], now).rows, [b], now).rows;
            |apart| == 1 && apart[0].iata == a.iata
  {
    var one := Sync([], [a], now);
    SyncOne([], a, now);
    SemanticMatchFinds([], a.iata, a.icao, a.slug);
    assert one == Add(Start([]), a, now) && one.rows == [Created(a, now)];
    assert [a, b][..1] == [a];
    assert Sync([], [a, b], now) == Step([], one, b, now);
    SemanticMatchFinds([], b.iata, b.icao, b.slug);
    assert Sync([], [a, b], now) == Add(one, b, now);
    SyncOne(one.rows, b, now);
    MergesIntoHolder(one.rows, b, now);
  }

  lemma SyncOne(disk: seq<RowData>, o: Offer, now: int)
    ensures Sync(disk, [o], now) == Step(disk, Start(disk), o, now)
  {
    assert [o][..0] == [];
  }

  lemma MergesIntoHolder(disk: seq<RowData>, o: Offer, now: int)
    requires |disk| == 1 && !Skipped(o) && disk[0].iata == o.iata != "" && disk[0].slug != o.slug
    ensures var st := Step(disk, Start(disk), o, now); |st.rows| == 1 && st.rows[0].iata == o.iata
  {
    SlugLookupNames(disk);
    SemanticMatchFinds(disk, o.iata, o.icao, o.slug);
    assert Matches(disk[0], o.iata, o.icao, o.slug);
    MergeKeepsSlug(disk[0], o, now);
    hide SlugLookup, ReportsChange, Merged, Skipped;
  }

  // ----- backfill from the core airlines -----

  datatype Core = Core(
    id: string, name: string, slug: string, country: string, region: string, allianceId: string, allianceCode: string)

  function Norm(ca: Core): string { Slug.NormalizeAirlineSlug(ca.name) }

  predicate Linked(disk: seq<RowData>, ca: Core) {
    ca.id != "" && exists i :: 0 <= i < |disk| && disk[i].airlineId == ca.id
  }

  function ResolveCore(disk: seq<RowData>, lookup: Lookup, ca: Core): Option<nat> {
    if ca.slug in lookup then Some(lookup[ca.slug])
    else if Norm(ca) != "" && Norm(ca) in lookup then Some(lookup[Norm(ca)])
    else SemanticMatch(disk, "", "", Norm(ca))
  }

  function Backfilled(ca: Core, now: int): RowData {
    RowData(ca.id, ca.name, ca.slug, "", "", "", ca.country, ca.country, ca.region,
            if Norm(ca) != "" then Norm(ca) else ca.slug, ca.allianceId, ca.allianceCode, "backfilled",
            Missing, Confidence(0.5, 0.6, 0.7, 0.4), Some(now))
  }

  function WithCore(x: RowData, ca: Core): RowData {
    x.(airlineId := FillGap(x.airlineId, ca.id), country := FillGap(x.country, ca.country))
  }

  /** Both slugs of a core airline lead to position `i`, unless they lead elsewhere already. */
  function CoreAliases(lookup: Lookup, ca: Core, i: nat): Lookup {
    var l := SetDefault(lookup, ca.slug, i);
    if Norm(ca) != "" then SetDefault(l, Norm(ca), i) else l
  }

  function BackfillStep(disk: seq<RowData>, st: State, ca: Core, now: int): (next: State)
    requires Sized(disk, st)
    ensures Sized(disk, next) && |next.rows| >= |st.rows|
  {
    if Linked(disk, ca) then st
    else match ResolveCore(disk, st.lookup, ca)
      case Some(i) =>
        st.(rows := st.rows[i := WithCore(st.rows[i], ca)], lookup := CoreAliases(st.lookup, ca, i))
      case None =>
        State(st.rows + [Backfilled(ca, now)], CoreAliases(st.lookup, ca, |st.rows|),
              st.stats.(created := st.stats.created + 1))
  }

  function Backfill(disk: seq<RowData>, cores: seq<Core>, now: int): (st: State)
    ensures Sized(disk, st)
    decreases |cores|
  {
    if cores == [] then Start(disk)
    else BackfillStep(disk, Backfill(disk, cores[..|cores| - 1], now), cores[|cores| - 1], now)
  }

  /** The lookup once both slugs of a core airline lead to position `i`, unless they
      led elsewhere before. */
  predicate Leads(before: Lookup, ca: Core, i: nat, after: Lookup) {
    var norm := Slug.NormalizeAirlineSlug(ca.name);
    var keys := if norm == "" then {ca.slug} else {ca.slug, norm};
    && after.Keys == before.Keys + keys
    && forall k | k in after :: after[k] == if k in before then before[k] else i
  }

  /** The row for a core airline: by its slug, else by the slug of its name, else the
      first flushed row with that name. */
  ghost predicate CoreChosen(disk: seq<RowData>, before: State, ca: Core, i: nat) {
    var norm := Slug.NormalizeAirlineSlug(ca.name);
    if ca.slug in before.lookup then i == before.lookup[ca.slug]
    else if norm != "" && norm in before.lookup then i == before.lookup[norm]
    else norm != "" && i < |disk| && NormalizedKey(disk[i]) == norm
         && forall j | 0 <= j < i :: NormalizedKey(disk[j]) != norm
  }

  ghost predicate CoreUnknown(disk: seq<RowData>, before: State, ca: Core) {
    var norm := Slug.NormalizeAirlineSlug(ca.name);
    && ca.slug !in before.lookup
    && (norm != "" ==> norm !in before.lookup && forall j | 0 <= j < |disk| :: NormalizedKey(disk[j]) != norm)
  }

  /** What a core airline leaves in the table. */
  ghost predicate CoreLanded(disk: seq<RowData>, before: State, ca: Core, now: int, after: State) {
    if ca.id != "" && exists i :: 0 <= i < |disk| && disk[i].airlineId == ca.id then after == before
    else if CoreUnknown(disk, before, ca) then AddedCore(before, ca, now, after)
    else exists i: nat :: i < |before.rows| && LinkedAt(disk, before, ca, after, i)
  }

  ghost predicate LinkedAt(disk: seq<RowData>, before: State, ca: Core, after: State, i: nat)
    requires i < |before.rows|
  {
    && |after.rows| == |before.rows| && after.rows == before.rows[i := after.rows[i]]
    && CoreChosen(disk, before, ca, i) && LinkLands(before.rows[i], ca, after.rows[i])
    && Leads(before.lookup, ca, i, after.lookup) && after.stats == before.stats
  }

  predicate LinkLands(x: RowData, ca: Core, y: RowData) {
    && y == x.(airlineId := y.airlineId, country := y.country)
    && Fills(x.airlineId, ca.id, y.airlineId) && Fills(x.country, ca.country, y.country)
  }

  predicate AddedCore(before: State, ca: Core, now: int, after: State) {
    var n := |before.rows|;
    && |after.rows| == n + 1 && after.rows == before.rows + [after.rows[n]] && NewCore(ca, now, after.rows[n])
    && Leads(before.lookup, ca, n, after.lookup)
    && after.stats == before.stats.(created := before.stats.created + 1)
  }

  predicate NewCore(ca: Core, now: int, y: RowData) {
    && y.airlineId == ca.id && y.name == ca.name && y.slug == ca.slug && y.iata == y.icao == y.callsign == ""
    && y.country == y.canonicalCountry == ca.country && y.region == ca.region
    && Fills(Slug.NormalizeAirlineSlug(ca.name), ca.slug, y.normalizedName)
    && y.allianceId == ca.allianceId && y.allianceCode == ca.allianceCode && y.status == "backfilled"
    && y.raw == Missing && y.confidence == Confidence(0.5, 0.6, 0.7, 0.4) && y.seenAt == Some(now)
  }

  lemma CoreChooses(disk: seq<RowData>, st: State, ca: Core)
    requires Sized(disk, st)
    ensures var m := ResolveCore(disk, st.lookup, ca);
            if m.Some? then CoreChosen(disk, st, ca, m.value) && !CoreUnknown(disk, st, ca)
            else CoreUnknown(disk, st, ca)
  {
    hide NormalizedKey, Slug.NormalizeAirlineSlug;
  }

  lemma CoreLeads(lookup: Lookup, ca: Core, i: nat)
    ensures Leads(lookup, ca, i, CoreAliases(lookup, ca, i))
  {
    hide Slug.NormalizeAirlineSlug;
  }

  lemma LinkIs(x: RowData, ca: Core)
    ensures LinkLands(x, ca, WithCore(x, ca))
  {
  }

  /** Every core airline does to the table what its own fields call for. */
  lemma CoreLands(disk: seq<RowData>, st: State, ca: Core, now: int)
    requires Sized(disk, st)
    ensures CoreLanded(disk, st, ca, now, BackfillStep(disk, st, ca, now))
  {
    var next := BackfillStep(disk, st, ca, now);
    CoreChooses(disk, st, ca);
    if !Linked(disk, ca) {
      match ResolveCore(disk, st.lookup, ca) {
        case Some(i) =>
          CoreLeads(st.lookup, ca, i);
          LinkIs(st.rows[i], ca);
          hide CoreChosen, CoreUnknown, Leads, LinkLands, ResolveCore, CoreAliases, WithCore;
          assert LinkedAt(disk, st, ca, next, i);
        case None =>
          CoreLeads(st.lookup, ca, |st.rows|);
          NewCoreIs(ca, now);
          hide CoreChosen, CoreUnknown, Leads, NewCore, ResolveCore, CoreAliases, Backfilled;
          assert next.rows[|st.rows|] == Backfilled(ca, now);
      }
    }
  }

  lemma NewCoreIs(ca: Core, now: int)
    ensures NewCore(ca, now, Backfilled(ca, now))
  {
    hide Slug.NormalizeAirlineSlug;
  }

  lemma BackfillKeepsIndex(disk: seq<RowData>, st: State, ca: Core, now: int)
    requires Sized(disk, st) && Indexed(st) && CarriesOn(disk, st.rows)
    ensures Grows(disk, st, BackfillStep(disk, st, ca, now))
    ensures Linked(disk, ca) || ca.slug in BackfillStep(disk, st, ca, now).lookup
  {
    var next := BackfillStep(disk, st, ca, now);
    if !Linked(disk, ca) {
      match ResolveCore(disk, st.lookup, ca) {
        case Some(i) =>
          ReplaceKeepsIndex(disk, st, i, WithCore(st.rows[i], ca), ca.slug, next.stats);
          var mid := State(next.rows, SetDefault(st.lookup, ca.slug, i), next.stats);
          ReplaceKeepsIndex(disk, mid, i, next.rows[i], Norm(ca), next.stats);
          assert next.rows[i := next.rows[i]] == next.rows;
        case None =>
          AppendKeepsIndex(disk, st, Backfilled(ca, now), next.stats);
      }
    }
  }

  /** The invariant of the sync holds through the backfill as well. */
  lemma {:induction false} BackfillInvariant(disk: seq<RowData>, cores: seq<Core>, now: int)
    requires Distinct(disk)
    ensures var st := Backfill(disk, cores, now);
            Distinct(st.rows) && Indexed(st) && CarriesOn(disk, st.rows)
    decreases |cores|
  {
    if cores == [] {
      StartIsIndexed(disk);
    } else {
      var pre := cores[..|cores| - 1];
      BackfillInvariant(disk, pre, now);
      BackfillKeepsIndex(disk, Backfill(disk, pre, now), cores[|cores| - 1], now);
      IndexedIsDistinct(Backfill(disk, cores, now));
    }
  }

  lemma BackfillStepCovers(disk: seq<RowData>, st: State, ca: Core, now: int)
    requires Sized(disk, st)
    ensures st.lookup.Keys <= BackfillStep(disk, st, ca, now).lookup.Keys
    ensures Linked(disk, ca) || ca.slug in BackfillStep(disk, st, ca, now).lookup
  {
  }

  /** After the backfill every core airline is linked or reachable by its slug. */
  lemma {:induction false} BackfillCoversCores(disk: seq<RowData>, cores: seq<Core>, now: int, k: nat)
    requires k < |cores|
    ensures Linked(disk, cores[k]) || cores[k].slug in Backfill(disk, cores, now).lookup
    decreases |cores|
  {
    var pre := cores[..|cores| - 1];
    BackfillStepCovers(disk, Backfill(disk, pre, now), cores[|cores| - 1], now);
    if k < |pre| {
      assert pre[k] == cores[k];
      BackfillCoversCores(disk, pre, now, k);
    }
  }

  /** Sync, backfill, sync again with the same feed: the second sync creates nothing. */
  lemma ResyncAfterBackfill(disk: seq<RowData>, feed: seq<Offer>, cores: seq<Core>, t: int, t': int, t'': int)
    requires Distinct(disk)
    ensures var rows := Backfill(Sync(disk, feed, t).rows, cores, t').rows;
            Sync(rows, feed, t'').stats.created == 0 && Distinct(Sync(rows, feed, t'').rows)
  {
    hide Sync, Backfill, Distinct, CarriesOn, Survives, Indexed;
    var first := Sync(disk, feed, t).rows;
    var rows := Backfill(first, cores, t').rows;
    SyncInvariant(disk, feed, t);
    BackfillInvariant(first, cores, t');
    CarriedSurvives(first, rows);
    SecondSyncCreatesNothing(disk, rows, feed, t, t'');
    SyncInvariant(rows, feed, t'');
  }

  /** A slug is its own key in the name query. */
  lemma KeyOfSlug(x: RowData)
    requires Slug.WellFormed(x.normalizedName)
    ensures NormalizedKey(x) == x.normalizedName
  {
    var s := x.normalizedName;
    assert Slug.Clean(s);
    Slug.CleanIsUntouched(s);
    assert Slug.Strip(s, c => c == ' ') == s;
  }

  /** The row made from a core airline is found, in any later sync and at any place of
      its feed, by a record whose name has the same slug, whatever the slug that the core
      airline itself has. */
  lemma BackfilledIsFound(ca: Core, t: int, later: seq<RowData>, feed: seq<Record>, r: Record, now: int)
    requires HasHeir(Backfilled(ca, t), later) && !Useless(r)
    requires Slug.NormalizeAirlineSlug(ca.name) == Slug.NormalizeAirlineSlug(r.name)
    ensures |Sync(later, Offers(feed + [r]), now).rows| == |Sync(later, Offers(feed), now).rows|
  {
    var x, slug := Backfilled(ca, t), Slug.NormalizeAirlineSlug(r.name);
    var j :| 0 <= j < |later| && KeepsIdentity(x, later[j]);
    assert later[j].normalizedName == slug;
    Slug.SlugFixesExactlyWellFormed(ca.name);
    KeyOfSlug(later[j]);
    var before := Sync(later, Offers(feed), now);
    assert !Unknown(later, before, r) by {
      hide NormalizedKey, Sync, Slug.NormalizeAirlineSlug;
      assert forall iata, icao :: !NoMatch(later, iata, icao, slug);
    }
    hide *;
    EveryRecordLands(later, feed, r, now);
    NoNewRow(later, before, r, now, Sync(later, Offers(feed + [r]), now));
  }

  lemma NoNewRow(disk: seq<RowData>, before: State, r: Record, now: int, after: State)
    requires Recorded(disk, before, r, now, after) && !Unknown(disk, before, r)
    ensures |after.rows| == |before.rows|
  {
    hide Landed, Chosen, Unknown, Useless;
  }
}
