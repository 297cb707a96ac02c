/** Airline identity resolution (aviation/aviation_identity_governance.py): the
    merge of an OpenFlights record into a row, and the choice of the row.

    Optional text fields are strings, with "" for both None and the empty string:
    every test the code makes on them is a truth test.
 */
module Identity {
  import opened Common
  import Slug

  // ----- codes -----

  function UpperChar(c: char): char {
    if 'a' <= c <= 'z' then (c as int - 32) as char else c
  }

  function UpperAll(s: string): string {
    if s == "" then "" else [UpperChar(s[0])] + UpperAll(s[1..])
  }

  /** A trimmed text is kept when its upper-case form has an allowed length. */
  function CodeOf(t: string, lo: nat, hi: nat): string {
    if t in {"-", "\\N", ""} then ""
    else if lo <= |UpperAll(t)| <= hi then UpperAll(t) else ""
  }

  function NormalizeCode(code: string, lo: nat, hi: nat): string {
    CodeOf(Slug.Strip(code, Slug.Space), lo, hi)
  }

  function NormalizeIata(code: string): string { NormalizeCode(code, 2, 2) }
  function NormalizeIcao(code: string): string { NormalizeCode(code, 2, 4) }

  lemma {:induction false} UpperAllTwice(s: string)
    ensures |UpperAll(s)| == |s| && UpperAll(UpperAll(s)) == UpperAll(s)
    ensures forall i | 0 <= i < |s| :: Slug.Space(UpperAll(s)[i]) <==> Slug.Space(s[i])
  {
    if s != "" {
      UpperAllTwice(s[1..]);
    }
  }

  predicate Trimmed(s: string) {
    s != "" ==> !Slug.Space(s[0]) && !Slug.Space(s[|s| - 1])
  }

  lemma {:induction false} StripLeftTrims(s: string)
    ensures var t := Slug.StripLeft(s, Slug.Space); t != "" ==> !Slug.Space(t[0])
  {
    if s != "" && Slug.Space(s[0]) {
      StripLeftTrims(s[1..]);
    }
  }

  lemma {:induction false} StripRightTrims(s: string)
    requires s != "" ==> !Slug.Space(s[0])
    ensures Trimmed(Slug.StripRight(s, Slug.Space))
    decreases |s|
  {
    if s != "" && Slug.Space(s[|s| - 1]) {
      StripRightTrims(s[..|s| - 1]);
    }
  }

  lemma StripTrims(code: string)
    ensures Trimmed(Slug.Strip(code, Slug.Space))
  {
    StripLeftTrims(code);
    StripRightTrims(Slug.StripLeft(code, Slug.Space));
  }

  /** A normalised code is trimmed, upper-case and of an allowed length. */
  lemma NormalizedCodes(code: string, lo: nat, hi: nat)
    requires 2 <= lo <= hi
    ensures var c := NormalizeCode(code, lo, hi); c != "" ==> lo <= |c| <= hi && Trimmed(c) && UpperAll(c) == c
  {
    StripTrims(code);
    hide Slug.Strip, Trimmed;
    CodeOfTrimmed(Slug.Strip(code, Slug.Space), lo, hi);
  }

  lemma CodeOfTrimmed(t: string, lo: nat, hi: nat)
    requires 2 <= lo <= hi && Trimmed(t)
    ensures var c := CodeOf(t, lo, hi); c != "" ==> lo <= |c| <= hi && Trimmed(c) && UpperAll(c) == c
  {
    UpperAllTwice(t);
    hide UpperAll, Slug.Space;
  }

  lemma MarkerInLowerCase(t: string)
    ensures UpperAll(t) == "\\N" && t != "\\N" <==> t == "\\n"
  {
    UpperAllTwice(t);
    if |t| == 2 {
      assert t == [t[0]] + [t[1]] && t[1..] == [t[1]] && t[1..][1..] == "";
      assert UpperAll(t) == UpperAll([t[0]]) + UpperAll([t[1]]);
    }
  }

  /** Normalising a code again keeps it exactly unless the code reads as the marker for
      "empty" in lower case where two letters are allowed: the first pass does not
      recognise that marker and turns it into the real one. */
  lemma CodesAreFixedExactlyWhen(code: string, lo: nat, hi: nat)
    requires 2 <= lo <= hi
    ensures NormalizeCode(NormalizeCode(code, lo, hi), lo, hi) == NormalizeCode(code, lo, hi) <==>
              !(lo == 2 && Slug.Strip(code, Slug.Space) == "\\n")
  {
    var t, c := Slug.Strip(code, Slug.Space), NormalizeCode(code, lo, hi);
    StripTrims(code);
    NormalizedCodes(code, lo, hi);
    TrimmedIsStripped(c);
    CodeOfTwice(t, lo, hi);
    hide UpperAll, Slug.Strip, Trimmed, CodeOf;
  }

  lemma CodeOfTwice(t: string, lo: nat, hi: nat)
    requires 2 <= lo <= hi
    ensures CodeOf(CodeOf(t, lo, hi), lo, hi) == CodeOf(t, lo, hi) <==> !(lo == 2 && t == "\\n")
  {
    UpperAllTwice(t);
    MarkerInLowerCase(t);
    hide UpperAll;
  }

  lemma TrimmedIsStripped(s: string)
    requires Trimmed(s)
    ensures Slug.Strip(s, Slug.Space) == s
  {
  }

  /** So the marker in lower case is stored as an airline's IATA and ICAO code. */
  lemma MarkerBecomesACode()
    ensures NormalizeIata("\\n") == "\\N" && NormalizeIcao("\\n") == "\\N"
  {
    TrimmedIsStripped("\\n");
    MarkerInLowerCase("\\n");
  }

  // ----- codes read from raw texts -----

  predicate Spaces(s: string) {
    forall i | 0 <= i < |s| :: s[i] in Slug.SPACES
  }

  /** `mid` is the text without the white space around it. */
  ghost predicate Trims(raw: string, mid: string) {
    && (exists pre, post :: raw == pre + mid + post && Spaces(pre) && Spaces(post))
    && (mid != "" ==> mid[0] !in Slug.SPACES && mid[|mid| - 1] !in Slug.SPACES)
  }

  predicate InUpperCase(u: string, s: string) {
    |u| == |s| && forall i | 0 <= i < |s| :: u[i] == if s[i] in Slug.LETTERS then (s[i] as int - 32) as char else s[i]
  }

  /** A raw text stands for a code: its trimmed text in upper case, if that has an
      allowed length and is no marker for "empty". */
  ghost predicate ReadsAs(raw: string, code: string, lo: nat, hi: nat) {
    exists mid :: Trims(raw, mid) &&
      if mid in {"-", "\\N"} || !(lo <= |mid| <= hi) then code == "" else InUpperCase(code, mid)
  }

  lemma {:induction false} StripLeftSplits(s: string) returns (pre: string)
    ensures s == pre + Slug.StripLeft(s, Slug.Space) && Spaces(pre)
  {
    if s != "" && Slug.Space(s[0]) {
      var rest := StripLeftSplits(s[1..]);
      Slug.CharClasses(s[0]);
      pre := [s[0]] + rest;
    } else {
      pre := "";
    }
  }

  lemma {:induction false} StripRightSplits(s: string) returns (post: string)
    ensures s == Slug.StripRight(s, Slug.Space) + post && Spaces(post)
    decreases |s|
  {
    if s != "" && Slug.Space(s[|s| - 1]) {
      var rest := StripRightSplits(s[..|s| - 1]);
      Slug.CharClasses(s[|s| - 1]);
      post := rest + [s[|s| - 1]];
      assert s == s[..|s| - 1] + [s[|s| - 1]];
    } else {
      post := "";
    }
  }

  lemma {:induction false} StripLeftPads(pre: string, s: string)
    requires Spaces(pre)
    ensures Slug.StripLeft(pre + s, Slug.Space) == Slug.StripLeft(s, Slug.Space)
  {
    if pre == "" {
      assert pre + s == s;
    } else {
      Slug.CharClasses(pre[0]);
      assert (pre + s)[1..] == pre[1..] + s;
      StripLeftPads(pre[1..], s);
    }
  }

  lemma {:induction false} StripRightPads(s: string, post: string)
    requires Spaces(post)
    ensures Slug.StripRight(s + post, Slug.Space) == Slug.StripRight(s, Slug.Space)
    decreases |post|
  {
    if post == "" {
      assert s + post == s;
    } else {
      Slug.CharClasses(post[|post| - 1]);
      assert (s + post)[..|s + post| - 1] == s + post[..|post| - 1];
      StripRightPads(s, post[..|post| - 1]);
    }
  }

  lemma TrimIsStrip(raw: string, mid: string)
    ensures Trims(raw, mid) <==> mid == Slug.Strip(raw, Slug.Space)
  {
    if Trims(raw, mid) {
      var pre, post :| raw == pre + mid + post && Spaces(pre) && Spaces(post);
      StripOfPadded(pre, mid, post);
    }
    if mid == Slug.Strip(raw, Slug.Space) {
      var pre := StripLeftSplits(raw);
      var post := StripRightSplits(Slug.StripLeft(raw, Slug.Space));
      assert raw == pre + mid + post;
      StripTrims(raw);
      if mid != "" {
        Slug.CharClasses(mid[0]);
        Slug.CharClasses(mid[|mid| - 1]);
      }
    }
  }

  lemma StripOfPadded(pre: string, mid: string, post: string)
    requires Spaces(pre) && Spaces(post)
    requires mid != "" ==> mid[0] !in Slug.SPACES && mid[|mid| - 1] !in Slug.SPACES
    ensures Slug.Strip(pre + mid + post, Slug.Space) == mid
  {
    assert pre + mid + post == pre + (mid + post);
    StripLeftPads(pre, mid + post);
    if mid == "" {
      assert mid + post == post == post + "";
      StripLeftPads(post, "");
    } else {
      Slug.CharClasses(mid[0]);
      Slug.CharClasses(mid[|mid| - 1]);
      assert (mid + post)[0] == mid[0];
      StripRightPads(mid, post);
    }
  }

  lemma {:induction false} UpperIsPointwise(s: string)
    ensures |UpperAll(s)| == |s| && forall i | 0 <= i < |s| :: UpperAll(s)[i] == UpperChar(s[i])
  {
    if s != "" {
      hide UpperChar;
      UpperIsPointwise(s[1..]);
    }
  }

  lemma UpperCharIs(c: char)
    ensures UpperChar(c) == if c in Slug.LETTERS then (c as int - 32) as char else c
  {
  }

  lemma UpperAllIsUpperCase(s: string)
    ensures InUpperCase(UpperAll(s), s)
  {
    UpperIsPointwise(s);
    hide UpperAll, UpperChar;
    forall i | 0 <= i < |s|
      ensures UpperAll(s)[i] == if s[i] in Slug.LETTERS then (s[i] as int - 32) as char else s[i]
    {
      UpperCharIs(s[i]);
    }
  }

  lemma UpperCaseIsUnique(u: string, v: string, s: string)
    requires InUpperCase(u, s) && InUpperCase(v, s)
    ensures u == v
  {
  }

  /** A raw text stands for just the code that it is normalised to. */
  lemma CodeIsReading(raw: string, code: string, lo: nat, hi: nat)
    requires 2 <= lo <= hi
    ensures ReadsAs(raw, code, lo, hi) <==> code == NormalizeCode(raw, lo, hi)
  {
    var t := Slug.Strip(raw, Slug.Space);
    forall mid ensures Trims(raw, mid) <==> mid == t {
      TrimIsStrip(raw, mid);
    }
    UpperAllIsUpperCase(t);
    if InUpperCase(code, t) {
      UpperCaseIsUnique(code, UpperAll(t), t);
    }
    UpperLength(t);
    assert NormalizeCode(raw, lo, hi) == CodeOf(t, lo, hi);
    hide UpperAll, Trims, InUpperCase, Slug.Strip, NormalizeCode, Spaces;
  }

  lemma UpperLength(t: string)
    ensures |UpperAll(t)| == |t|
  {
    UpperAllTwice(t);
  }

  predicate PlainCode(code: string, lo: nat, hi: nat) {
    && lo <= |code| <= hi && code != "\\N"
    && (code != "" ==> code[0] !in Slug.SPACES && code[|code| - 1] !in Slug.SPACES)
    && forall i | 0 <= i < |code| :: code[i] !in Slug.LETTERS
  }

  lemma PlainCodeReads(code: string, lo: nat, hi: nat)
    requires 2 <= lo
    ensures PlainCode(code, lo, hi) ==> ReadsAs(code, code, lo, hi)
  {
    if PlainCode(code, lo, hi) {
      assert code == "" + code + "" && Spaces("");
      assert Trims(code, code);
      assert InUpperCase(code, code);
    }
  }

  /** Case does not matter for a slug, and no letter is lost with it. */
  lemma SlugIgnoresCase(name: string)
    ensures Slug.NormalizeAirlineSlug(UpperAll(name)) == Slug.NormalizeAirlineSlug(name)
    ensures UpperAll(Slug.Lower(name)) == UpperAll(name) && |Slug.Lower(name)| == |name|
  {
    LowerOfUpper(name);
    UpperOfLower(name);
    Slug.LowerIsPointwise(name);
    hide *;
    Slug.SlugOfLower(name);
    Slug.SlugOfLower(UpperAll(name));
  }

  lemma {:induction false} LowerOfUpper(s: string)
    ensures Slug.Lower(UpperAll(s)) == Slug.Lower(s)
  {
    if s != "" {
      LowerOfUpper(s[1..]);
      assert UpperAll(s)[1..] == UpperAll(s[1..]);
    }
  }

  lemma {:induction false} UpperOfLower(s: string)
    ensures UpperAll(Slug.Lower(s)) == UpperAll(s)
  {
    if s != "" {
      UpperOfLower(s[1..]);
      assert Slug.Lower(s)[1..] == Slug.Lower(s[1..]);
    }
  }

  /** Two names of letters and digits have one slug exactly when they are equal up to
      case. */
  lemma SameSlugExactlyWhen(s: string, t: string)
    requires forall i | 0 <= i < |s| :: s[i] in Slug.LETTERS || s[i] in Slug.CAPITALS || s[i] in Slug.DIGITS
    requires forall i | 0 <= i < |t| :: t[i] in Slug.LETTERS || t[i] in Slug.CAPITALS || t[i] in Slug.DIGITS
    ensures Slug.NormalizeAirlineSlug(s) == Slug.NormalizeAirlineSlug(t) <==> UpperAll(s) == UpperAll(t)
  {
    hide *;
    Slug.SlugOfLetters(s);
    Slug.SlugOfLetters(t);
    UpperOfLower(s);
    UpperOfLower(t);
    LowerOfUpper(s);
    LowerOfUpper(t);
  }

  // ----- rows and records -----

  /** The value under "openflights" in raw_metadata: absent, not a mapping, or a mapping. */
  datatype Raw = Missing | Plain | Nested(inner: map<string, string>)

  datatype Confidence = Confidence(enrichment: real, source: real, normalization: real, quality: real)

  datatype RowData = RowData(
    airlineId: string, name: string, slug: string, iata: string, icao: string, callsign: string,
    country: string, canonicalCountry: string, region: string, normalizedName: string,
    allianceId: string, allianceCode: string, status: string, raw: Raw,
    confidence: Confidence, seenAt: Option<int>)

  /** One OpenFlights record with the region and alliance the static tables give it. */
  datatype Record = Record(
    id: string, name: string, alias: string, iata: string, icao: string, callsign: string,
    country: string, active: bool, region: string, allianceId: string, allianceCode: string)

  function Max(x: real, y: real): real { if x >= y then x else y }

  function Raise(c: Confidence): Confidence {
    Confidence(Max(c.enrichment, 0.9), Max(c.source, 0.9), Max(c.normalization, 1.0), Max(c.quality, 0.8))
  }

  function Take(s: string, n: nat): string {
    if |s| <= n then s else s[..n]
  }

  function CleanCallsign(s: string): string {
    Take(Slug.Strip(s, Slug.Space), 120)
  }

  /** What a record offers a row once its texts are cleaned.  The two flags say
      that the raw ICAO or callsign was not empty, whatever is left of it. */
  datatype Offer = Offer(
    id: string, alias: string, name: string, active: bool, slug: string, iata: string,
    icao: string, icaoGiven: bool, callsign: string, callsignGiven: bool,
    country: string, region: string, allianceId: string, allianceCode: string)

  function OfferOf(r: Record): Offer {
    Offer(r.id, r.alias, r.name, r.active, Slug.NormalizeAirlineSlug(r.name), NormalizeIata(r.iata),
          NormalizeIcao(r.icao), r.icao != "", CleanCallsign(r.callsign), r.callsign != "",
          r.country, r.region, r.allianceId, r.allianceCode)
  }

  function Patch(o: Offer): map<string, string> {
    map["id" := o.id, "alias" := o.alias]
  }

  function FillGap(held: string, offered: string): string {
    if held == "" then offered else held
  }

  // ----- the merge -----

  function FilledNames(x: RowData, o: Offer): RowData {
    x.(name := if |o.name| > |x.name| then o.name else x.name,
       iata := FillGap(x.iata, o.iata),
       icao := if o.icaoGiven then FillGap(x.icao, o.icao) else x.icao,
       callsign := if o.callsignGiven then FillGap(x.callsign, o.callsign) else x.callsign)
  }

  function FilledCountry(x: RowData, o: Offer): RowData {
    x.(country := FillGap(x.country, o.country),
       canonicalCountry := FillGap(x.canonicalCountry, o.country),
       region := FillGap(x.region, o.region))
  }

  function FilledAlliance(x: RowData, o: Offer): RowData {
    x.(allianceId := FillGap(x.allianceId, o.allianceId),
       allianceCode := FillGap(x.allianceCode, o.allianceCode))
  }

  function FilledLineage(x: RowData, o: Offer): RowData {
    x.(normalizedName := FillGap(x.normalizedName, o.slug),
       raw := Nested(if x.raw.Nested? then x.raw.inner + Patch(o) else Patch(o)))
  }

  /** The row's fields after the merge, apart from the stamps set when it changed. */
  function Filled(x: RowData, o: Offer): RowData {
    FilledLineage(FilledAlliance(FilledCountry(FilledNames(x, o), o), o), o)
  }

  /** The flag the merge returns.  An ICAO that does not normalise and a blank
      callsign count as changes although they fill nothing; an existing inner
      mapping is updated in place and so never counts. */
  predicate ReportsChange(x: RowData, o: Offer) {
    NamesReport(x, o) || CountryReports(x, o) || AllianceReports(x, o) || LineageReports(x, o)
  }

  predicate NamesReport(x: RowData, o: Offer) {
    || |o.name| > |x.name|
    || (o.iata != "" && x.iata == "")
    || (o.icaoGiven && x.icao == "")
    || (o.callsignGiven && x.callsign == "")
  }

  predicate CountryReports(x: RowData, o: Offer) {
    || (o.country != "" && (x.country == "" || x.canonicalCountry == ""))
    || (o.region != "" && x.region == "")
  }

  predicate AllianceReports(x: RowData, o: Offer) {
    (o.allianceId != "" && x.allianceId == "") || (o.allianceCode != "" && x.allianceCode == "")
  }

  predicate LineageReports(x: RowData, o: Offer) {
    (o.slug != "" && x.normalizedName == "") || !x.raw.Nested?
  }

  function Stamped(x: RowData, now: int): RowData {
    x.(seenAt := Some(now), status := FillGap(x.status, "canonical"), confidence := Raise(x.confidence))
  }

  function Merged(x: RowData, o: Offer, now: int): RowData {
    if ReportsChange(x, o) then Stamped(Filled(x, o), now) else Filled(x, o)
  }

  /** The identity of a row: what resolution matches on. */
  predicate KeepsIdentity(x: RowData, y: RowData) {
    && y.slug == x.slug
    && (x.iata != "" ==> y.iata == x.iata)
    && (x.icao != "" ==> y.icao == x.icao)
    && (x.normalizedName != "" ==> y.normalizedName == x.normalizedName)
  }

  predicate AtLeast(c: Confidence, d: Confidence) {
    c.enrichment >= d.enrichment && c.source >= d.source && c.normalization >= d.normalization && c.quality >= d.quality
  }

  predicate Keeps(x: string, y: string) {
    x != "" ==> y == x
  }

  /** A merge fills gaps only: no non-empty field is overwritten but by a longer
      name, no confidence goes down, no inner raw key is lost. */
  lemma MergeIsNonDestructive(x: RowData, o: Offer, now: int)
    ensures var y := Merged(x, o, now);
            && KeepsIdentity(x, y) && AtLeast(y.confidence, x.confidence)
            && y.airlineId == x.airlineId
            && (y.name == x.name || (|y.name| > |x.name| && y.name == o.name))
            && Keeps(x.callsign, y.callsign) && Keeps(x.country, y.country)
            && Keeps(x.canonicalCountry, y.canonicalCountry) && Keeps(x.region, y.region)
            && Keeps(x.allianceId, y.allianceId) && Keeps(x.allianceCode, y.allianceCode)
            && Keeps(x.status, y.status)
            && (x.raw.Nested? ==> y.raw.inner.Keys >= x.raw.inner.Keys)
  {
    hide ReportsChange, Patch;
  }

  lemma CleanedAreGiven(r: Record)
    ensures var o := OfferOf(r);
            (o.icao != "" ==> o.icaoGiven) && (o.callsign != "" ==> o.callsignGiven)
  {
  }

  /** When no change is reported, nothing but the inner raw mapping differs. */
  lemma SilentMergeTouchesOnlyRaw(x: RowData, o: Offer, now: int)
    requires !ReportsChange(x, o)
    ensures Merged(x, o, now) == x.(raw := Nested(x.raw.inner + Patch(o)))
  {
  }

  /** A second merge of the same record reports a change exactly when the record
      carries an ICAO or a callsign that normalises to nothing and the row still
      has none. */
  lemma RepeatedMergeReports(x: RowData, r: Record, now: int)
    ensures ReportsChange(Merged(x, OfferOf(r), now), OfferOf(r)) <==>
              || (r.icao != "" && NormalizeIcao(r.icao) == "" && x.icao == "")
              || (r.callsign != "" && CleanCallsign(r.callsign) == "" && x.callsign == "")
  {
    RepeatedOfferReports(x, OfferOf(r), now);
  }

  lemma RepeatedOfferReports(x: RowData, o: Offer, now: int)
    ensures ReportsChange(Merged(x, o, now), o) <==>
              (o.icaoGiven && o.icao == "" && x.icao == "") || (o.callsignGiven && o.callsign == "" && x.callsign == "")
  {
  }

  // ----- what a record leaves in a row -----

  /** A gap takes what is offered; nothing else changes. */
  predicate Fills(held: string, offered: string, after: string) {
    after == if held != "" then held else offered
  }

  ghost predicate CallsignReadsAs(raw: string, callsign: string) {
    exists mid :: Trims(raw, mid) && callsign == if |mid| <= 120 then mid else mid[..120]
  }

  ghost predicate CodesLand(x: RowData, r: Record, y: RowData) {
    && (if x.iata != "" then y.iata == x.iata else ReadsAs(r.iata, y.iata, 2, 2))
    && (if x.icao != "" then y.icao == x.icao else ReadsAs(r.icao, y.icao, 2, 4))
    && (if x.callsign != "" then y.callsign == x.callsign else CallsignReadsAs(r.callsign, y.callsign))
  }

  predicate TextsLand(x: RowData, r: Record, y: RowData) {
    && y.slug == x.slug && y.airlineId == x.airlineId
    && y.name == (if |r.name| > |x.name| then r.name else x.name)
    && Fills(x.country, r.country, y.country) && Fills(x.canonicalCountry, r.country, y.canonicalCountry)
    && Fills(x.region, r.region, y.region)
    && Fills(x.allianceId, r.allianceId, y.allianceId) && Fills(x.allianceCode, r.allianceCode, y.allianceCode)
    && Fills(x.normalizedName, Slug.NormalizeAirlineSlug(r.name), y.normalizedName)
    && y.raw == Nested((if x.raw.Nested? then x.raw.inner else map[]) + map["id" := r.id, "alias" := r.alias])
  }

  predicate Better(held: real, floor: real, after: real) {
    after == if held >= floor then held else floor
  }

  /** Nothing is stamped when nothing but the raw mapping changed. */
  predicate StampsLand(x: RowData, now: int, y: RowData) {
    if y.(raw := x.raw) == x && x.raw.Nested? && y.seenAt == x.seenAt then true
    else
      && y.seenAt == Some(now) && Fills(x.status, "canonical", y.status)
      && Better(x.confidence.enrichment, 0.9, y.confidence.enrichment)
      && Better(x.confidence.source, 0.9, y.confidence.source)
      && Better(x.confidence.normalization, 1.0, y.confidence.normalization)
      && Better(x.confidence.quality, 0.8, y.confidence.quality)
  }

  /** The row `x` after the record has been merged into it is `y`. */
  ghost predicate Landed(x: RowData, r: Record, now: int, y: RowData) {
    CodesLand(x, r, y) && TextsLand(x, r, y) && StampsLand(x, now, y)
  }

  lemma CallsignIsReading(raw: string)
    ensures CallsignReadsAs(raw, CleanCallsign(raw))
  {
    TrimIsStrip(raw, Slug.Strip(raw, Slug.Space));
    hide Trims, Slug.Strip;
  }

  lemma NothingReadsAsNothing()
    ensures NormalizeIcao("") == "" && CleanCallsign("") == ""
  {
  }

  lemma CodesOfMerge(x: RowData, r: Record, now: int)
    ensures CodesLand(x, r, Merged(x, OfferOf(r), now))
  {
    var y := Merged(x, OfferOf(r), now);
    NothingReadsAsNothing();
    assert y.iata == FillGap(x.iata, NormalizeIata(r.iata));
    assert y.icao == FillGap(x.icao, NormalizeIcao(r.icao));
    assert y.callsign == FillGap(x.callsign, CleanCallsign(r.callsign));
    hide Merged, ReadsAs, CallsignReadsAs, NormalizeCode, CleanCallsign;
    CodeIsReading(r.iata, NormalizeIata(r.iata), 2, 2);
    CodeIsReading(r.icao, NormalizeIcao(r.icao), 2, 4);
    CallsignIsReading(r.callsign);
  }

  lemma TextsOfMerge(x: RowData, r: Record, now: int)
    ensures TextsLand(x, r, Merged(x, OfferOf(r), now))
  {
    hide ReportsChange, NormalizeCode, CleanCallsign, Slug.NormalizeAirlineSlug;
  }

  lemma StampsOfMerge(x: RowData, o: Offer, now: int)
    ensures StampsLand(x, now, Merged(x, o, now))
  {
    if !ReportsChange(x, o) {
      SilentMergeTouchesOnlyRaw(x, o, now);
    } else {
      var y := Merged(x, o, now);
      assert y.seenAt == Some(now) && y.status == FillGap(x.status, "canonical");
      assert y.confidence == Raise(x.confidence);
    }
    hide ReportsChange, Filled, Merged;
  }

  /** A merge fills the gaps of a row with what the record stands for. */
  lemma MergeLands(x: RowData, r: Record, now: int)
    ensures Landed(x, r, now, Merged(x, OfferOf(r), now))
  {
    CodesOfMerge(x, r, now);
    TextsOfMerge(x, r, now);
    StampsOfMerge(x, OfferOf(r), now);
    hide *;
    LandedIs(x, r, now, Merged(x, OfferOf(r), now));
  }

  lemma LandedIs(x: RowData, r: Record, now: int, y: RowData)
    requires CodesLand(x, r, y) && TextsLand(x, r, y) && StampsLand(x, now, y)
    ensures Landed(x, r, now, y)
  {
    hide CodesLand, TextsLand, StampsLand;
  }

  // ----- the choice of a row -----

  /** SQL: lower(coalesce(trim(normalized_name), '')). */
  function NormalizedKey(x: RowData): string {
    Slug.Lower(Slug.Strip(x.normalizedName, c => c == ' '))
  }

  /** The first row of the table, in table order, that passes the test. */
  function First(disk: seq<RowData>, test: RowData -> bool): (r: Option<nat>)
    ensures r.Some? ==> r.value < |disk| && test(disk[r.value]) && forall i | 0 <= i < r.value :: !test(disk[i])
    ensures r.None? ==> forall i | 0 <= i < |disk| :: !test(disk[i])
  {
    if disk == [] then None
    else match First(disk[..|disk| - 1], test)
      case Some(i) => Some(i)
      case None => if test(disk[|disk| - 1]) then Some(|disk| - 1) else None
  }

  /** The queries see the flushed table only: by IATA, then ICAO, then normalised name. */
  function SemanticMatch(disk: seq<RowData>, iata: string, icao: string, key: string): Option<nat> {
    var byIata := if iata != "" then First(disk, (x: RowData) => x.iata == iata) else None;
    var byIcao := if icao != "" then First(disk, (x: RowData) => x.icao == icao) else None;
    var byName := if key != "" then First(disk, (x: RowData) => NormalizedKey(x) == key) else None;
    if byIata.Some? then byIata else if byIcao.Some? then byIcao else byName
  }

  /** No row of the table passes the test. */
  ghost predicate Nowhere(disk: seq<RowData>, test: RowData -> bool) {
    forall i | 0 <= i < |disk| :: !test(disk[i])
  }

  /** An IATA match goes before an ICAO match, and that before a name match. */
  lemma CodesGoFirst(disk: seq<RowData>, iata: string, icao: string, key: string)
    ensures var m := SemanticMatch(disk, iata, icao, key);
            m.Some? ==>
              var x := disk[m.value];
              && (x.iata == iata != "" || iata == "" || Nowhere(disk, (y: RowData) => y.iata == iata))
              && ((iata != "" && x.iata == iata) || (icao != "" && x.icao == icao)
                  || icao == "" || Nowhere(disk, (y: RowData) => y.icao == icao))
  {
  }

  /** A flushed row that cleaned codes or a slug could be matched to. */
  predicate Matches(x: RowData, iata: string, icao: string, key: string) {
    (iata != "" && x.iata == iata) || (icao != "" && x.icao == icao) || (key != "" && NormalizedKey(x) == key)
  }

  lemma SemanticMatchFinds(disk: seq<RowData>, iata: string, icao: string, key: string)
    ensures var m := SemanticMatch(disk, iata, icao, key);
            && (m.Some? ==> m.value < |disk| && Matches(disk[m.value], iata, icao, key))
            && (m.None? ==> forall i | 0 <= i < |disk| :: !Matches(disk[i], iata, icao, key))
  {
  }

  predicate CodeIs(code: string, held: string) { code != "" && held == code }

  /** Row `i` is the first with the IATA code, else the first with the ICAO code, else
      the first with the name. */
  ghost predicate FirstMatch(disk: seq<RowData>, iata: string, icao: string, key: string, i: nat) {
    i < |disk| &&
    if exists j :: 0 <= j < |disk| && CodeIs(iata, disk[j].iata)
    then CodeIs(iata, disk[i].iata) && forall j | 0 <= j < i :: !CodeIs(iata, disk[j].iata)
    else if exists j :: 0 <= j < |disk| && CodeIs(icao, disk[j].icao)
    then CodeIs(icao, disk[i].icao) && forall j | 0 <= j < i :: !CodeIs(icao, disk[j].icao)
    else NormalizedKey(disk[i]) == key && forall j | 0 <= j < i :: NormalizedKey(disk[j]) != key
  }

  predicate NoMatch(disk: seq<RowData>, iata: string, icao: string, key: string) {
    forall i | 0 <= i < |disk| ::
      !CodeIs(iata, disk[i].iata) && !CodeIs(icao, disk[i].icao) && NormalizedKey(disk[i]) != key
  }

  lemma SemanticMatchIsFirst(disk: seq<RowData>, iata: string, icao: string, key: string)
    requires key != ""
    ensures var m := SemanticMatch(disk, iata, icao, key);
            if m.Some? then FirstMatch(disk, iata, icao, key, m.value) else NoMatch(disk, iata, icao, key)
  {
    hide NormalizedKey;
  }

  lemma KeptIdentityStillMatches(x: RowData, y: RowData, iata: string, icao: string, key: string)
    requires KeepsIdentity(x, y) && Matches(x, iata, icao, key)
    ensures Matches(y, iata, icao, key)
  {
    if x.normalizedName == "" {
      assert NormalizedKey(x) == "";
    }
  }
}
