/** The row objects and the sync loop that changes them in place, proved against
    the functions of `Identity` and `AirlineSync`.
 */
module AirlineTable {
  import opened Common
  import opened Identity
  import opened AirlineSync

  /** "if offered and not held: take it", and whether it was taken. */
  method Offered(held: string, offered: string) returns (value: string, taken: bool)
    ensures value == FillGap(held, offered) && taken == (offered != "" && held == "")
  {
    if offered != "" && held == "" {
      return offered, true;
    }
    return held, false;
  }

  class AirlineRow {
    var airlineId: string
    var airlineName: string
    const slug: string
    var iataCode: string
    var icaoCode: string
    var callsign: string
    var country: string
    var canonicalCountry: string
    var region: string
    var normalizedName: string
    var allianceId: string
    var allianceCode: string
    var enrichmentStatus: string
    var raw: Raw
    var confidence: Confidence
    var seenAt: Option<int>

    /** All the fields as one value. */
    ghost var view: RowData

    ghost predicate Valid()
      reads this
    {
      view == RowData(airlineId, airlineName, slug, iataCode, icaoCode, callsign, country, canonicalCountry, region,
                      normalizedName, allianceId, allianceCode, enrichmentStatus, raw, confidence, seenAt)
    }

    constructor (x: RowData)
      ensures Valid() && view == x
    {
      view := x;
      airlineId, airlineName, slug, iataCode, icaoCode := x.airlineId, x.name, x.slug, x.iata, x.icao;
      callsign, country, canonicalCountry := x.callsign, x.country, x.canonicalCountry;
      region, normalizedName := x.region, x.normalizedName;
      allianceId, allianceCode, enrichmentStatus := x.allianceId, x.allianceCode, x.status;
      raw, confidence, seenAt := x.raw, x.confidence, x.seenAt;
    }

    /** A query for this row gives its fields. */
    method Read() returns (x: RowData)
      requires Valid()
      ensures x == view
    {
      x := RowData(airlineId, airlineName, slug, iataCode, icaoCode, callsign, country, canonicalCountry, region,
                   normalizedName, allianceId, allianceCode, enrichmentStatus, raw, confidence, seenAt);
    }

    method FillNameAndIata(o: Offer) returns (updated: bool)
      modifies this`airlineName, this`iataCode
      ensures airlineName == if |o.name| > |old(airlineName)| then o.name else old(airlineName)
      ensures iataCode == FillGap(old(iataCode), o.iata)
      ensures updated <==> |o.name| > |old(airlineName)| || (o.iata != "" && old(iataCode) == "")
    {
      updated := false;
      if |o.name| > |airlineName| {
        airlineName := o.name;
        updated := true;
      }
      var filled;
      iataCode, filled := Offered(iataCode, o.iata);
      updated := updated || filled;
    }

    method FillNameAndCodes(o: Offer) returns (updated: bool)
      requires Valid()
      modifies this`airlineName, this`iataCode, this`icaoCode, this`callsign, this`view
      ensures Valid() && view == FilledNames(old(view), o) && updated == NamesReport(old(view), o)
    {
      updated := FillNameAndIata(o);
      if o.icaoGiven && icaoCode == "" {
        icaoCode := o.icao;
        updated := true;
      }
      if o.callsignGiven && callsign == "" {
        callsign := o.callsign;
        updated := true;
      }
      view := FilledNames(view, o);
    }

    method FillCountry(o: Offer) returns (updated: bool)
      requires Valid()
      modifies this`country, this`canonicalCountry, this`region, this`view
      ensures Valid() && view == FilledCountry(old(view), o) && updated == CountryReports(old(view), o)
    {
      var c1, c2, c3;
      country, c1 := Offered(country, o.country);
      canonicalCountry, c2 := Offered(canonicalCountry, o.country);
      region, c3 := Offered(region, o.region);
      updated := c1 || c2 || c3;
      view := FilledCountry(view, o);
    }

    method FillAlliance(o: Offer) returns (updated: bool)
      requires Valid()
      modifies this`allianceId, this`allianceCode, this`view
      ensures Valid() && view == FilledAlliance(old(view), o) && updated == AllianceReports(old(view), o)
    {
      var c1, c2;
      allianceId, c1 := Offered(allianceId, o.allianceId);
      allianceCode, c2 := Offered(allianceCode, o.allianceCode);
      updated := c1 || c2;
      view := FilledAlliance(view, o);
    }

    method FillLineage(o: Offer) returns (updated: bool)
      requires Valid()
      modifies this`normalizedName, this`raw, this`view
      ensures Valid() && view == FilledLineage(old(view), o) && updated == LineageReports(old(view), o)
    {
      updated := false;
      if o.slug != "" && normalizedName == "" {
        normalizedName := o.slug;
        updated := true;
      }
      if raw.Nested? {
        raw := Nested(raw.inner + Patch(o));
      } else {
        raw := Nested(Patch(o));
        updated := true;
      }
      view := FilledLineage(view, o);
    }

    method Stamp(now: int)
      requires Valid()
      modifies this`seenAt, this`enrichmentStatus, this`confidence, this`view
      ensures Valid() && view == Stamped(old(view), now)
    {
      seenAt := Some(now);
      enrichmentStatus := if enrichmentStatus != "" then enrichmentStatus else "canonical";
      confidence := Raise(confidence);
      view := Stamped(view, now);
    }

    /** merge_airline_metadata_from_openflights. */
    method MergeFromOpenFlights(o: Offer, now: int) returns (updated: bool)
      requires Valid()
      modifies this
      ensures Valid() && view == Merged(old(view), o, now)
      ensures updated == ReportsChange(old(view), o)
    {
      var names := FillNameAndCodes(o);
      var country := FillCountry(o);
      var alliance := FillAlliance(o);
      var lineage := FillLineage(o);
      updated := names || country || alliance || lineage;
      if updated {
        Stamp(now);
      }
    }

    method LinkToCore(ca: Core)
      requires Valid()
      modifies this
      ensures Valid() && view == WithCore(old(view), ca)
    {
      if airlineId == "" {
        airlineId := ca.id;
      }
      if country == "" && ca.country != "" {
        country := ca.country;
      }
      view := WithCore(view, ca);
    }
  }

  lemma SlugLookupOfNone()
    ensures SlugLookup([]) == map[]
  {
  }

  lemma SlugLookupStep(table: seq<RowData>, x: RowData)
    ensures SlugLookup(table + [x]) == SlugLookup(table)[x.slug := |table|]
  {
    assert (table + [x])[..|table|] == table;
  }

  lemma SyncStep(disk: seq<RowData>, feed: seq<Record>, k: nat, now: int)
    requires k < |feed|
    ensures Sync(disk, Offers(feed[..k + 1]), now)
            == Step(disk, Sync(disk, Offers(feed[..k]), now), OfferOf(feed[k]), now)
  {
    hide OfferOf, Step;
    var pre, o := Offers(feed[..k]), OfferOf(feed[k]);
    assert feed[..k + 1][..k] == feed[..k];
    assert (pre + [o])[..|pre|] == pre;
  }

  lemma SyncOfNone(disk: seq<RowData>, feed: seq<Record>, now: int)
    ensures Sync(disk, Offers(feed[..0]), now) == Start(disk)
  {
  }

  lemma BackfillStepAt(disk: seq<RowData>, cores: seq<Core>, k: nat, now: int)
    requires k < |cores|
    ensures Backfill(disk, cores[..k + 1], now) == BackfillStep(disk, Backfill(disk, cores[..k], now), cores[k], now)
  {
    hide BackfillStep;
    assert cores[..k + 1][..k] == cores[..k];
  }

  lemma BackfillOfNone(disk: seq<RowData>, cores: seq<Core>, now: int)
    ensures Backfill(disk, cores[..0], now) == Start(disk)
  {
  }

  lemma StepIs(disk: seq<RowData>, st: State, o: Offer, now: int)
    requires Sized(disk, st) && !Skipped(o)
    ensures var m := Resolve(disk, st.lookup, o);
            Step(disk, st, o, now) == if m.Some? then MergeInto(st, m.value, o, now) else Add(st, o, now)
  {
  }

  lemma SizedAfter(disk: seq<RowData>, st: State, i: nat, y: RowData)
    requires Sized(disk, st) && i < |st.rows|
    ensures Sized(disk, st.(rows := st.rows[i := y]))
  {
  }

  /** One session at work: the rows it knows, the lookup by slug and alias, and the
      table as the queries see it. */
  class SyncSession {
    const disk: seq<RowData>
    var rows: seq<AirlineRow>
    var lookup: map<string, AirlineRow>
    var stats: Stats
    ghost var state: State
    ghost var place: map<AirlineRow, nat>

    /** The objects hold the fields of `table`, one object per position. */
    ghost predicate RowsHold(table: seq<RowData>)
      reads this`rows, this`place, rows
    {
      && |rows| == |table|
      && (forall i | 0 <= i < |rows| :: rows[i] in place && place[rows[i]] == i)
      && (forall i | 0 <= i < |rows| :: rows[i].Valid() && rows[i].view == table[i])
    }

    ghost predicate LookupHolds(index: Lookup)
      reads this`rows, this`lookup
    {
      && lookup.Keys == index.Keys
      && (forall k | k in lookup :: index[k] < |rows| && lookup[k] == rows[index[k]])
    }

    ghost predicate Valid()
      reads this, rows
    {
      Sized(disk, state) && RowsHold(state.rows) && LookupHolds(state.lookup) && stats == state.stats
    }

    /** build_airline_slug_lookup, with the table that the queries see. */
    static method IndexRows(loaded: seq<AirlineRow>)
      returns (table: seq<RowData>, index: map<string, AirlineRow>, ghost at: map<AirlineRow, nat>)
      requires forall i, j | 0 <= i < j < |loaded| :: loaded[i] != loaded[j]
      requires forall i | 0 <= i < |loaded| :: loaded[i].Valid()
      ensures |table| == |loaded| && forall i | 0 <= i < |loaded| :: table[i] == loaded[i].view
      ensures forall i | 0 <= i < |loaded| :: loaded[i] in at && at[loaded[i]] == i
      ensures index.Keys == SlugLookup(table).Keys
      ensures forall s | s in index :: SlugLookup(table)[s] < |loaded| && index[s] == loaded[SlugLookup(table)[s]]
    {
      table, index, at := [], map[], map[];
      hide SlugLookup;
      SlugLookupOfNone();
      for k := 0 to |loaded|
        invariant |table| == k && forall i | 0 <= i < k :: table[i] == loaded[i].view
        invariant forall i | 0 <= i < k :: loaded[i] in at && at[loaded[i]] == i
        invariant index.Keys == SlugLookup(table).Keys
        invariant forall s | s in index :: SlugLookup(table)[s] < k && index[s] == loaded[SlugLookup(table)[s]]
      {
        var x := loaded[k].Read();
        SlugLookupStep(table, x);
        table := table + [x];
        index := index[loaded[k].slug := loaded[k]];
        at := at[loaded[k] := k];
      }
    }

    /** The session has loaded the whole table and indexed it by slug. */
    constructor (loaded: seq<AirlineRow>)
      requires forall i, j | 0 <= i < j < |loaded| :: loaded[i] != loaded[j]
      requires forall i | 0 <= i < |loaded| :: loaded[i].Valid()
      ensures Valid() && rows == loaded
      ensures |disk| == |loaded| && forall i | 0 <= i < |disk| :: disk[i] == loaded[i].view
      ensures state == Start(disk)
    {
      hide SlugLookup;
      var table, index;
      ghost var at;
      table, index, at := IndexRows(loaded);
      disk, rows, lookup, place := table, loaded, index, at;
      stats, state := Stats(0, 0, 0), Start(table);
    }

    /** slug_lookup.setdefault. */
    method SetAlias(slug: string, existing: AirlineRow, ghost i: nat)
      requires Valid() && i < |rows| && rows[i] == existing
      modifies this`lookup, this`state
      ensures Valid() && state == old(state).(lookup := SetDefault(old(state).lookup, slug, i))
    {
      if slug !in lookup {
        lookup := lookup[slug := existing];
      }
      state := state.(lookup := SetDefault(state.lookup, slug, i));
    }

    /** The merge alone. */
    method MergeRow(existing: AirlineRow, ghost i: nat, o: Offer, now: int) returns (changed: bool)
      requires Valid() && i < |rows| && rows[i] == existing
      modifies this`state, existing
      ensures Valid() && changed == ReportsChange(old(state).rows[i], o)
      ensures state == old(state).(rows := old(state).rows[i := Merged(old(state).rows[i], o, now)])
    {
      hide LookupHolds, Merged, ReportsChange, Sized, AirlineRow.Valid;
      ghost var table := state.rows;
      assert forall j | 0 <= j < |rows| && j != i :: rows[j] != existing;
      changed := existing.MergeFromOpenFlights(o, now);
      assert forall j | 0 <= j < |rows| && j != i :: rows[j].Valid() && rows[j].view == table[j];
      SizedAfter(disk, state, i, Merged(table[i], o, now));
      state := state.(rows := table[i := Merged(table[i], o, now)]);
      assert RowsHold(state.rows);
    }

    method CountUpdated(changed: bool)
      requires Valid()
      modifies this`stats, this`state
      ensures Valid()
      ensures var st := old(state).stats;
              state == old(state).(stats := st.(updated := st.updated + if changed then 1 else 0))
    {
      if changed {
        stats := stats.(updated := stats.updated + 1);
      }
      state := state.(stats := stats);
    }

    method MergeExisting(existing: AirlineRow, ghost i: nat, o: Offer, now: int)
      requires Valid() && i < |rows| && rows[i] == existing
      modifies this`lookup, this`stats, this`state, existing
      ensures Valid() && state == MergeInto(old(state), i, o, now)
    {
      hide RowsHold, LookupHolds, Merged, ReportsChange, SetDefault;
      SetAlias(o.slug, existing, i);
      var changed := MergeRow(existing, i, o, now);
      CountUpdated(changed);
    }

    /** session.add. */
    method AppendRow(x: RowData) returns (row: AirlineRow)
      requires Valid()
      modifies this`rows, this`place, this`state
      ensures Valid() && state == old(state).(rows := old(state).rows + [x])
      ensures fresh(row) && rows == old(rows) + [row]
    {
      row := new AirlineRow(x);
      place := place[row := |rows|];
      rows := rows + [row];
      state := state.(rows := state.rows + [x]);
    }

    method AddRow(o: Offer, now: int) returns (row: AirlineRow)
      requires Valid() && o.slug !in state.lookup
      modifies this
      ensures Valid() && state == Add(old(state), o, now)
      ensures fresh(row) && rows == old(rows) + [row]
    {
      ghost var n := |rows|;
      row := AppendRow(Created(o, now));
      SetAlias(o.slug, row, n);
      stats := stats.(created := stats.created + 1);
      state := state.(stats := stats);
    }

    /** The choice of the row: None stands for a row still to be created. */
    method FindExisting(o: Offer) returns (existing: AirlineRow?)
      requires Valid()
      ensures var m := Resolve(disk, state.lookup, o);
              if m.Some? then m.value < |rows| && existing == rows[m.value] else existing == null
    {
      if o.slug in lookup {
        return lookup[o.slug];
      }
      SemanticMatchFinds(disk, o.iata, o.icao, o.slug);
      var hit := SemanticMatch(disk, o.iata, o.icao, o.slug);
      if hit.Some? {
        return rows[hit.value];
      }
      return null;
    }

    method CountSkipped()
      requires Valid()
      modifies this`stats, this`state
      ensures Valid() && state == Skip(old(state))
    {
      stats := stats.(skipped := stats.skipped + 1);
      state := Skip(state);
    }

    /** resolve_airline_identity together with the loop body that calls it. */
    method ResolveRecord(o: Offer, now: int)
      requires Valid()
      modifies this, rows
      ensures Valid() && state == Step(disk, old(state), o, now)
      ensures rows == old(rows) || exists row :: fresh(row) && rows == old(rows) + [row]
    {
      ghost var st := state;
      if o.name == "" || !o.active || o.slug == "" {
        CountSkipped();
        return;
      }
      hide *;
      ghost var m := Resolve(disk, state.lookup, o);
      var existing := FindExisting(o);
      if existing != null {
        MergeExisting(existing, m.value, o, now);
      } else {
        var row := AddRow(o, now);
      }
      StepIs(disk, st, o, now);
    }

    /** _sync_airlines. */
    method SyncAirlines(feed: seq<Record>, now: int)
      requires Valid() && state == Start(disk)
      modifies this, rows
      ensures Valid() && state == Sync(disk, Offers(feed), now)
      ensures old(rows) <= rows
      // each record does to the table what its own texts call for
      ensures FeedRecorded(disk, feed, now)
    {
      FeedLands(disk, feed, now);
      hide *;
      SyncOfNone(disk, feed, now);
      for k := 0 to |feed|
        invariant Valid() && state == Sync(disk, Offers(feed[..k]), now)
        invariant old(rows) <= rows && forall x | x in rows :: x in old(rows) || fresh(x)
      {
        SyncStep(disk, feed, k, now);
        assert forall i | 0 <= i < |rows| :: rows[i] in old(rows) || fresh(rows[i]);
        ResolveRecord(OfferOf(feed[k]), now);
      }
      assert feed[..|feed|] == feed;
    }

    method FindForCore(ca: Core) returns (existing: AirlineRow?)
      requires Valid()
      ensures var m := ResolveCore(disk, state.lookup, ca);
              if m.Some? then m.value < |rows| && existing == rows[m.value] else existing == null
    {
      var norm := Norm(ca);
      if ca.slug in lookup {
        return lookup[ca.slug];
      }
      if norm != "" && norm in lookup {
        return lookup[norm];
      }
      SemanticMatchFinds(disk, "", "", norm);
      var hit := SemanticMatch(disk, "", "", norm);
      if hit.Some? {
        return rows[hit.value];
      }
      return null;
    }

    method SetAliases(ca: Core, row: AirlineRow, ghost i: nat)
      requires Valid() && i < |rows| && rows[i] == row
      modifies this`lookup, this`state
      ensures Valid()
      ensures state == old(state).(lookup := CoreAliases(old(state).lookup, ca, i))
    {
      var norm := Norm(ca);
      SetAlias(ca.slug, row, i);
      if norm != "" {
        SetAlias(norm, row, i);
      }
    }

    method LinkExisting(existing: AirlineRow, ghost i: nat, ca: Core)
      requires Valid() && i < |rows| && rows[i] == existing
      modifies this`lookup, this`state, existing
      ensures Valid()
      ensures var st := old(state);
              state == st.(rows := st.rows[i := WithCore(st.rows[i], ca)], lookup := CoreAliases(st.lookup, ca, i))
    {
      existing.LinkToCore(ca);
      state := state.(rows := state.rows[i := WithCore(state.rows[i], ca)]);
      SetAliases(ca, existing, i);
    }

    method AddCore(ca: Core, now: int)
      requires Valid()
      modifies this
      ensures Valid() && exists row :: fresh(row) && rows == old(rows) + [row]
      ensures var st := old(state);
              state == State(st.rows + [Backfilled(ca, now)], CoreAliases(st.lookup, ca, |st.rows|),
                             st.stats.(created := st.stats.created + 1))
    {
      ghost var n := |rows|;
      var row := AppendRow(Backfilled(ca, now));
      SetAliases(ca, row, n);
      stats := stats.(created := stats.created + 1);
      state := state.(stats := stats);
    }

    /** One turn of _backfill_from_core. */
    method BackfillRecord(ca: Core, now: int)
      requires Valid()
      modifies this, rows
      ensures Valid() && state == BackfillStep(disk, old(state), ca, now)
      ensures rows == old(rows) || exists row :: fresh(row) && rows == old(rows) + [row]
      ensures CoreLanded(disk, old(state), ca, now, state)
    {
      CoreLands(disk, state, ca, now);
      hide CoreLanded;
      if Linked(disk, ca) {
        return;
      }
      ghost var m := ResolveCore(disk, state.lookup, ca);
      var existing := FindForCore(ca);
      if existing != null {
        LinkExisting(existing, m.value, ca);
      } else {
        AddCore(ca, now);
      }
    }

    /** _backfill_from_core. */
    method BackfillFromCore(cores: seq<Core>, now: int)
      requires Valid() && state == Start(disk)
      modifies this, rows
      ensures Valid() && state == Backfill(disk, cores, now)
      ensures old(rows) <= rows
    {
      hide *;
      BackfillOfNone(disk, cores, now);
      for k := 0 to |cores|
        invariant Valid() && state == Backfill(disk, cores[..k], now)
        invariant old(rows) <= rows && forall x | x in rows :: x in old(rows) || fresh(x)
      {
        BackfillStepAt(disk, cores, k, now);
        assert forall i | 0 <= i < |rows| :: rows[i] in old(rows) || fresh(rows[i]);
        BackfillRecord(cores[k], now);
      }
      assert cores[..|cores|] == cores;
    }
  }
}
