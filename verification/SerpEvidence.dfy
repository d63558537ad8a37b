/** The producer of search-result assessments (scripts/content_serp_observations.py) and the validator that later
    challenges them (scripts/content_brief_validation.py). */
module SerpEvidence {
  import opened Wrappers
  import opened Sorting
  import opened Sequences
  import opened Text
  import opened GraphBuilder

  /** What the code calls and this project does not model: which text `urlsplit` takes apart without raising, the host
      it finds there, the scheme-and-host test, the date part of `date.fromisoformat(text[:10])` and of
      `datetime.fromisoformat(text)`, and the current day. */
  datatype Environment = Environment(
    splits: string -> bool, host: string -> string, publicForm: string -> bool,
    day: string -> Option<int>, moment: string -> Option<int>, today: int, isoToday: string)

  /** The value of a capture field: a text, or anything else with the text `str` makes of it and its truth value. */
  datatype Value = Text(text: string) | Other(shown: string, truthy: bool) {
    function Shown(): string {
      if Text? then text else shown
    }

    predicate Truthy() {
      if Text? then text != "" else truthy
    }

    /** A text of more than blanks. */
    predicate Filled() {
      Text? && Strip(text) != ""
    }
  }

  type Capture = map<string, Value>

  const NAMES := ["intent_fit", "first_hand_evidence", "source_quality", "freshness", "entity_coverage", "conversion_fit"]
  const REQUIRED_CAPTURE := ["query", "locale", "device", "date", "source"]
  const STALE_AFTER_DAYS := 30

  // ----- Rows -----

  /** The fields both sides read; `textual` says that the URL is a string. */
  datatype Observed = Observed(
    url: string, textual: bool, intent: string, firstHand: bool, sources: bool, conversion: bool,
    lastUpdated: string, entities: nat)

  /** `sized` says that `len` takes the entities. */
  datatype ResultRow = ResultRow(observed: Observed, sized: bool, inaccessible: bool, fetchError: bool)

  datatype Competitor = Competitor(url: string, domainToo: bool, observed: Observed, signals: map<string, real>, score: real)

  function LowerAll(s: string): string {
    seq(|s|, i requires 0 <= i < |s| => Lower(s[i]))
  }

  /** `str(row.get("intent", "")).strip().lower()` */
  function IntentOf(o: Observed): string {
    LowerAll(Strip(o.intent))
  }

  /** `url.rstrip("/")` */
  function TrimSlashes(s: string): string {
    if s != "" && s[|s| - 1] == '/' then TrimSlashes(s[..|s| - 1]) else s
  }

  // ----- Signals and scores -----

  function Freshness(e: Environment, lastUpdated: string, asOf: string): real {
    if lastUpdated == "" then 0.0
    else
      match (e.day(lastUpdated), if asOf == "" then Some(e.today) else e.day(asOf))
      case (Some(updated), Some(current)) =>
        if current - updated <= 365 then 1.0 else if current - updated <= 1095 then 0.5 else 0.0
      case _ => 0.0
  }

  function Flag(b: bool): real {
    if b then 1.0 else 0.0
  }

  function Signal(e: Environment, o: Observed, target: Option<string>, asOf: string, name: string): (r: real)
    ensures 0.0 <= r <= 1.0
  {
    if name == NAMES[0] then
      Flag(IntentOf(o) != "" && (target.None? || target.value == "" || IntentOf(o) == LowerAll(target.value)))
    else if name == NAMES[1] then Flag(o.firstHand)
    else if name == NAMES[2] then Flag(o.sources)
    else if name == NAMES[3] then Freshness(e, o.lastUpdated, asOf)
    else if name == NAMES[4] then if o.entities >= 3 then 1.0 else o.entities as real / 3.0
    else Flag(o.conversion)
  }

  /** `serp_signals` */
  function Signals(e: Environment, o: Observed, target: Option<string>, asOf: string): map<string, real> {
    map n | n in NAMES :: Signal(e, o, target, asOf, n)
  }

  /** Rounding to one decimal, ties to even. */
  function RoundTenth(x: real): real {
    var tenths := x * 10.0;
    var below := tenths.Floor;
    var rest := tenths - below as real;
    (if rest < 0.5 || (rest == 0.5 && below % 2 == 0) then below else below + 1) as real / 10.0
  }

  function Sum(names: seq<string>, w: map<string, real>): real
    requires forall n :: n in names ==> n in w
  {
    if names == [] then 0.0 else w[names[0]] + Sum(names[1..], w)
  }

  /** One signal's part of the score. */
  function Share(signal: real, weight: real): real {
    signal * weight
  }

  lemma ShareBounds(signal: real, weight: real)
    requires 0.0 <= signal <= 1.0 && weight >= 0.0
    ensures 0.0 <= Share(signal, weight) <= weight
  {
    ProductBounds(signal, weight);
  }

  lemma ProductBounds(s: real, w: real)
    requires 0.0 <= s <= 1.0 && w >= 0.0
    ensures 0.0 <= s * w <= w
  {
  }

  function Weighted(names: seq<string>, signals: map<string, real>, w: map<string, real>): real
    requires forall n :: n in names ==> n in signals && n in w
  {
    if names == [] then 0.0 else Share(signals[names[0]], w[names[0]]) + Weighted(names[1..], signals, w)
  }

  function Score(signals: map<string, real>, w: map<string, real>): real
    requires forall n :: n in NAMES ==> n in signals && n in w
  {
    RoundTenth(Weighted(NAMES, signals, w) * 100.0)
  }

  predicate NameKeys(w: map<string, real>) {
    w.Keys == set n | n in NAMES
  }

  /** `_weights`: normalised to sum to one. */
  function Weights(supplied: map<string, real>): Result<map<string, real>, string> {
    if !NameKeys(supplied) then Err("unknown or missing SERP heuristic weights")
    else if exists n :: n in supplied && supplied[n] < 0.0 then Err("SERP heuristic weights must be non-negative numbers")
    else
      var total := Sum(NAMES, supplied);
      if total <= 0.0 then Err("SERP heuristic weights must sum to more than zero")
      else Ok(map n | n in supplied :: supplied[n] / total)
  }

  /** Weights as the producer leaves them. */
  ghost predicate Normalised(w: map<string, real>) {
    NameKeys(w) && (forall n :: n in w ==> 0.0 <= w[n] <= 1.0) && Sum(NAMES, w) == 1.0
  }

  lemma {:induction false} SumScales(names: seq<string>, w: map<string, real>, v: map<string, real>, total: real)
    requires total > 0.0 && forall n :: n in names ==> n in w && n in v && v[n] == w[n] / total
    ensures Sum(names, v) == Sum(names, w) / total
  {
    if names != [] {
      SumScales(names[1..], w, v, total);
      QuotientAdds(w[names[0]], Sum(names[1..], w), total);
    }
  }

  lemma QuotientAdds(a: real, b: real, total: real)
    requires total > 0.0
    ensures (a + b) / total == a / total + b / total
  {
  }

  lemma {:induction false} PartOfSum(names: seq<string>, w: map<string, real>, n: string)
    requires forall m :: m in names ==> m in w && w[m] >= 0.0
    ensures Sum(names, w) >= 0.0 && (n in names ==> w[n] <= Sum(names, w))
  {
    if names != [] {
      PartOfSum(names[1..], w, n);
      assert names == [names[0]] + names[1..];
    }
  }

  lemma WeightsNormalised(supplied: map<string, real>)
    requires Weights(supplied).Ok?
    ensures Normalised(Weights(supplied).value)
  {
    var w, total := Weights(supplied).value, Sum(NAMES, supplied);
    SumScales(NAMES, supplied, w, total);
    assert total / total == 1.0;
    forall n | n in w
      ensures 0.0 <= w[n] <= 1.0
    {
      PartOfSum(NAMES, supplied, n);
      Fraction(supplied[n], total);
    }
  }

  lemma Fraction(x: real, total: real)
    requires 0.0 <= x <= total && total > 0.0
    ensures 0.0 <= x / total <= 1.0
  {
  }

  lemma {:induction false} WeightedBounds(names: seq<string>, signals: map<string, real>, w: map<string, real>)
    requires forall n :: n in names ==> n in signals && n in w && 0.0 <= signals[n] <= 1.0 && w[n] >= 0.0
    ensures 0.0 <= Weighted(names, signals, w) <= Sum(names, w)
  {
    if names != [] {
      WeightedBounds(names[1..], signals, w);
      ShareBounds(signals[names[0]], w[names[0]]);
    }
  }

  lemma RoundBounds(x: real)
    requires 0.0 <= x <= 100.0
    ensures 0.0 <= RoundTenth(x) <= 100.0
  {
    var below := (x * 10.0).Floor;
    assert 0 <= below <= 1000;
    assert below == 1000 ==> x * 10.0 - below as real == 0.0;
  }

  /** Scores of normalised weights lie between 0 and 100. */
  lemma ScoreBounds(e: Environment, o: Observed, target: Option<string>, asOf: string, w: map<string, real>)
    requires Normalised(w)
    ensures 0.0 <= Score(Signals(e, o, target, asOf), w) <= 100.0
  {
    var signals := Signals(e, o, target, asOf);
    WeightedBounds(NAMES, signals, w);
    RoundBounds(Weighted(NAMES, signals, w) * 100.0);
  }

  // ----- Collecting observations -----

  /** `seen`, the inaccessible URLs, the intents, the competitors and the two counters. */
  datatype Collected = Collected(
    seen: set<string>, inaccessible: seq<string>, intents: set<string>, competitors: seq<Competitor>,
    duplicates: nat, own: nat)

  const NOTHING := Collected({}, [], {}, [], 0, 0)

  /** What stays fixed during the loop. */
  datatype Setting = Setting(
    own: string, known: set<string>, weights: map<string, real>, target: Option<string>, asOf: string)

  predicate DomainMatches(e: Environment, host: string, domain: string) {
    var candidate := e.host(domain);
    candidate != "" && (host == candidate || EndsWith(host, "." + candidate))
  }

  predicate EndsWith(s: string, suffix: string) {
    |suffix| <= |s| && s[|s| - |suffix|..] == suffix
  }

  /** `_competitor_result` */
  function CompetitorOf(e: Environment, c: Setting, o: Observed): Competitor
    requires NameKeys(c.weights)
  {
    var signals := Signals(e, o, c.target, c.asOf);
    Competitor(Strip(o.url), exists d :: d in c.known && DomainMatches(e, e.host(Strip(o.url)), d), o, signals,
               Score(signals, c.weights))
  }

  function UrlKey(o: Observed): string {
    TrimSlashes(Strip(o.url))
  }

  /** One turn of the loop of `_collect_serp_observations`. */
  function Collect(e: Environment, c: Setting, s: Collected, r: ResultRow): Collected
    requires NameKeys(c.weights)
  {
    var url := Strip(r.observed.url);
    if url == "" then s
    else if UrlKey(r.observed) in s.seen then s.(duplicates := s.duplicates + 1)
    else
      var t := s.(seen := s.seen + {UrlKey(r.observed)});
      if c.own != "" && DomainMatches(e, e.host(url), c.own) then t.(own := t.own + 1)
      else if r.inaccessible || r.fetchError then t.(inaccessible := t.inaccessible + [url])
      else
        t.(intents := if IntentOf(r.observed) != "" then t.intents + {IntentOf(r.observed)} else t.intents,
           competitors := t.competitors + [CompetitorOf(e, c, r.observed)])
  }

  function CollectAll(e: Environment, c: Setting, rows: seq<ResultRow>): Collected
    requires NameKeys(c.weights)
  {
    if rows == [] then NOTHING else Collect(e, c, CollectAll(e, c, rows[..|rows| - 1]), rows[|rows| - 1])
  }

  function WithUrl(): ResultRow -> bool {
    (r: ResultRow) => Strip(r.observed.url) != ""
  }

  function Total(s: Collected): nat {
    |s.competitors| + |s.inaccessible| + s.duplicates + s.own
  }

  lemma CollectCounts(e: Environment, c: Setting, s: Collected, r: ResultRow)
    requires NameKeys(c.weights)
    ensures Total(Collect(e, c, s, r)) == Total(s) + if Strip(r.observed.url) != "" then 1 else 0
  {
  }

  /** Every row with a URL is counted exactly once: as competitor, inaccessible, duplicate or own. */
  lemma {:induction false} RowsCountedOnce(e: Environment, c: Setting, rows: seq<ResultRow>)
    requires NameKeys(c.weights)
    ensures Total(CollectAll(e, c, rows)) == |Filter(rows, WithUrl())|
  {
    if rows != [] {
      var n := |rows| - 1;
      RowsCountedOnce(e, c, rows[..n]);
      CollectCounts(e, c, CollectAll(e, c, rows[..n]), rows[n]);
      FilterSnoc(rows, n, WithUrl());
      assert rows[..n + 1] == rows;
    }
  }

  function KeyOfCompetitor(c: Competitor): string {
    TrimSlashes(c.url)
  }

  function UrlKeys(cs: seq<Competitor>): (r: seq<string>)
    ensures |r| == |cs| && forall i :: 0 <= i < |cs| ==> r[i] == KeyOfCompetitor(cs[i])
  {
    seq(|cs|, i requires 0 <= i < |cs| => KeyOfCompetitor(cs[i]))
  }

  function IntentsOf(cs: seq<Competitor>): set<string> {
    set c | c in cs && IntentOf(c.observed) != "" :: IntentOf(c.observed)
  }

  /** Competitors carry their own signals and scores, no two URLs collide, none is listed as inaccessible, and the
      intents are theirs. */
  ghost predicate Coherent(e: Environment, c: Setting, s: Collected)
    requires NameKeys(c.weights)
  {
    && (forall x :: x in s.competitors ==> Made(e, c, x))
    && NoDuplicates(UrlKeys(s.competitors))
    && (forall k :: k in UrlKeys(s.competitors) ==> k in s.seen)
    && (forall u :: u in s.inaccessible ==> InaccessibleKey(u) in s.seen && InaccessibleKey(u) !in UrlKeys(s.competitors))
    && s.intents == IntentsOf(s.competitors)
  }

  predicate Made(e: Environment, c: Setting, x: Competitor)
    requires NameKeys(c.weights)
  {
    x == CompetitorOf(e, c, x.observed)
  }

  function InaccessibleKey(u: string): string {
    TrimSlashes(Strip(u))
  }

  lemma {:induction false} StripTwice(s: string)
    ensures Strip(Strip(s)) == Strip(s)
    decreases |s|
  {
    if s != "" {
      if IsSpace(s[0]) {
        StripTwice(s[1..]);
      } else if IsSpace(s[|s| - 1]) {
        StripTwice(s[..|s| - 1]);
      }
    }
  }

  lemma IntentsNext(cs: seq<Competitor>, x: Competitor)
    ensures IntentsOf(cs + [x]) == IntentsOf(cs) + if IntentOf(x.observed) != "" then {IntentOf(x.observed)} else {}
  {
    assert forall c :: c in cs + [x] <==> c in cs || c == x;
  }

  lemma UrlKeysNext(cs: seq<Competitor>, x: Competitor)
    requires NoDuplicates(UrlKeys(cs)) && KeyOfCompetitor(x) !in UrlKeys(cs)
    ensures UrlKeys(cs + [x]) == UrlKeys(cs) + [KeyOfCompetitor(x)] && NoDuplicates(UrlKeys(cs + [x]))
  {
    assert UrlKeys(cs + [x]) == UrlKeys(cs) + [KeyOfCompetitor(x)];
  }

  lemma AddedCompetitorCoherent(e: Environment, c: Setting, s: Collected, x: Competitor, intents: set<string>)
    requires NameKeys(c.weights) && Coherent(e, c, s) && Made(e, c, x) && KeyOfCompetitor(x) !in s.seen
    requires intents == s.intents + if IntentOf(x.observed) != "" then {IntentOf(x.observed)} else {}
    ensures Coherent(e, c, s.(seen := s.seen + {KeyOfCompetitor(x)}, competitors := s.competitors + [x],
                              intents := intents))
  {
    IntentsNext(s.competitors, x);
    UrlKeysNext(s.competitors, x);
    assert forall y :: y in s.competitors + [x] <==> y in s.competitors || y == x;
  }

  lemma AddedInaccessibleCoherent(e: Environment, c: Setting, s: Collected, o: Observed)
    requires NameKeys(c.weights) && Coherent(e, c, s) && UrlKey(o) !in s.seen
    ensures Coherent(e, c, s.(seen := s.seen + {UrlKey(o)}, inaccessible := s.inaccessible + [Strip(o.url)]))
  {
    StripTwice(o.url);
    assert InaccessibleKey(Strip(o.url)) == UrlKey(o);
  }

  lemma CollectCoherent(e: Environment, c: Setting, s: Collected, r: ResultRow)
    requires NameKeys(c.weights) && Coherent(e, c, s)
    ensures Coherent(e, c, Collect(e, c, s, r))
  {
    if Strip(r.observed.url) != "" && UrlKey(r.observed) !in s.seen {
      var o := r.observed;
      assert KeyOfCompetitor(CompetitorOf(e, c, o)) == UrlKey(o);
      AddedCompetitorCoherent(e, c, s, CompetitorOf(e, c, o),
                              s.intents + if IntentOf(o) != "" then {IntentOf(o)} else {});
      AddedInaccessibleCoherent(e, c, s, r.observed);
    }
  }

  lemma {:induction false} CollectedCoherent(e: Environment, c: Setting, rows: seq<ResultRow>)
    requires NameKeys(c.weights)
    ensures Coherent(e, c, CollectAll(e, c, rows))
  {
    if rows != [] {
      CollectedCoherent(e, c, rows[..|rows| - 1]);
      CollectCoherent(e, c, CollectAll(e, c, rows[..|rows| - 1]), rows[|rows| - 1]);
    }
  }

  // ----- Which rows become competitors -----

  predicate Listed(r: ResultRow) {
    Strip(r.observed.url) != ""
  }

  /** Neither the own site nor marked inaccessible; `own` is the own host. */
  predicate Readable(e: Environment, own: string, r: ResultRow) {
    !(own != "" && DomainMatches(e, e.host(Strip(r.observed.url)), own)) && !r.inaccessible && !r.fetchError
  }

  /** Some row with a URL has this key. */
  predicate Mentioned(rows: seq<ResultRow>, key: string) {
    exists j :: 0 <= j < |rows| && Listed(rows[j]) && UrlKey(rows[j].observed) == key
  }

  /** Row `i` has a URL and is the first row with its key. */
  predicate FirstRow(rows: seq<ResultRow>, i: nat) {
    i < |rows| && Listed(rows[i]) && !Mentioned(rows[..i], UrlKey(rows[i].observed))
  }

  /** Row `i` is kept: it is the first with its key, and it can be read. */
  predicate KeptRow(e: Environment, own: string, rows: seq<ResultRow>, i: nat) {
    FirstRow(rows, i) && Readable(e, own, rows[i])
  }

  /** The loop raises at row `i`: its URL cannot be taken apart, or it is kept and its entities have no length. */
  predicate RaisesAt(e: Environment, own: string, rows: seq<ResultRow>, i: nat) {
    FirstRow(rows, i) && (!e.splits(Strip(rows[i].observed.url)) || (Readable(e, own, rows[i]) && !rows[i].sized))
  }

  predicate RowsRaise(e: Environment, own: string, rows: seq<ResultRow>) {
    exists i: nat :: i < |rows| && RaisesAt(e, own, rows, i)
  }

  lemma MentionedNext(rows: seq<ResultRow>, key: string)
    requires rows != []
    ensures
      var last := rows[|rows| - 1];
      Mentioned(rows, key) <==> Mentioned(rows[..|rows| - 1], key) || (Listed(last) && UrlKey(last.observed) == key)
  {
    var init := rows[..|rows| - 1];
    if Mentioned(rows, key) {
      var j :| 0 <= j < |rows| && Listed(rows[j]) && UrlKey(rows[j].observed) == key;
      assert j < |init| ==> init[j] == rows[j];
    }
    if Mentioned(init, key) {
      var j :| 0 <= j < |init| && Listed(init[j]) && UrlKey(init[j].observed) == key;
      assert init[j] == rows[j];
    }
  }

  lemma {:induction false} SeenExactly(e: Environment, c: Setting, rows: seq<ResultRow>, key: string)
    requires NameKeys(c.weights)
    ensures key in CollectAll(e, c, rows).seen <==> Mentioned(rows, key)
  {
    if rows != [] {
      SeenExactly(e, c, rows[..|rows| - 1], key);
      MentionedNext(rows, key);
    }
  }

  lemma KeptEarlier(e: Environment, own: string, rows: seq<ResultRow>, n: nat, i: nat)
    requires i < n <= |rows|
    ensures KeptRow(e, own, rows[..n], i) <==> KeptRow(e, own, rows, i)
  {
    assert rows[..n][..i] == rows[..i];
  }

  /** `x` describes a kept row. */
  ghost predicate Describes(e: Environment, c: Setting, rows: seq<ResultRow>, x: Competitor)
    requires NameKeys(c.weights)
  {
    exists i: nat :: KeptRow(e, c.own, rows, i) && x == CompetitorOf(e, c, rows[i].observed)
  }

  lemma DescribesNext(e: Environment, c: Setting, rows: seq<ResultRow>, x: Competitor)
    requires NameKeys(c.weights) && rows != []
    ensures
      var n := |rows| - 1;
      Describes(e, c, rows, x) <==>
      Describes(e, c, rows[..n], x) || (KeptRow(e, c.own, rows, n) && x == CompetitorOf(e, c, rows[n].observed))
  {
    var n := |rows| - 1;
    if Describes(e, c, rows, x) {
      var i: nat :| KeptRow(e, c.own, rows, i) && x == CompetitorOf(e, c, rows[i].observed);
      if i < n {
        KeptEarlier(e, c.own, rows, n, i);
        assert rows[..n][i] == rows[i];
      }
    }
    if Describes(e, c, rows[..n], x) {
      var i: nat :| KeptRow(e, c.own, rows[..n], i) && x == CompetitorOf(e, c, rows[..n][i].observed);
      KeptEarlier(e, c.own, rows, n, i);
      assert rows[..n][i] == rows[i];
    }
  }

  /** One turn adds a competitor exactly for a new key that can be read. */
  lemma CollectAdds(e: Environment, c: Setting, s: Collected, r: ResultRow)
    requires NameKeys(c.weights)
    ensures
      Collect(e, c, s, r).competitors ==
      s.competitors + if Listed(r) && UrlKey(r.observed) !in s.seen && Readable(e, c.own, r)
                      then [CompetitorOf(e, c, r.observed)] else []
  {
  }

  /** The competitors are the kept rows and nothing else. */
  lemma {:induction false} CompetitorsExactly(e: Environment, c: Setting, rows: seq<ResultRow>, x: Competitor)
    requires NameKeys(c.weights)
    ensures x in CollectAll(e, c, rows).competitors <==> Describes(e, c, rows, x)
  {
    if rows != [] {
      var n := |rows| - 1;
      CompetitorsExactly(e, c, rows[..n], x);
      SeenExactly(e, c, rows[..n], UrlKey(rows[n].observed));
      DescribesNext(e, c, rows, x);
      CollectAdds(e, c, CollectAll(e, c, rows[..n]), rows[n]);
    }
  }

  lemma SomeCompetitor(e: Environment, c: Setting, rows: seq<ResultRow>)
    requires NameKeys(c.weights)
    ensures CollectAll(e, c, rows).competitors != [] <==> exists i: nat :: KeptRow(e, c.own, rows, i)
  {
    var cs := CollectAll(e, c, rows).competitors;
    if cs != [] {
      CompetitorsExactly(e, c, rows, cs[0]);
    }
    if i: nat :| KeptRow(e, c.own, rows, i) {
      CompetitorsExactly(e, c, rows, CompetitorOf(e, c, rows[i].observed));
    }
  }

  /** The loop of `_collect_serp_observations`, which raises at the first row that makes it. */
  method CollectSerpObservations(e: Environment, c: Setting, rows: seq<ResultRow>)
    returns (r: Result<Collected, string>)
    requires NameKeys(c.weights)
    ensures r.Err? <==> RowsRaise(e, c.own, rows)
    ensures r.Ok? ==> r.value == CollectAll(e, c, rows)
  {
    var intents: set<string>, inaccessible: seq<string>, seen: set<string> := {}, [], {};
    var competitors: seq<Competitor> := [];
    var duplicates, own := 0, 0;
    for i := 0 to |rows|
      invariant duplicates >= 0 && own >= 0
      invariant Collected(seen, inaccessible, intents, competitors, duplicates, own) == CollectAll(e, c, rows[..i])
      invariant forall j: nat :: j < i ==> !RaisesAt(e, c.own, rows, j)
    {
      assert rows[..i + 1][..i] == rows[..i];
      SeenExactly(e, c, rows[..i], UrlKey(rows[i].observed));
      var row := rows[i].observed;
      var url := Strip(row.url);
      if url == "" {
        continue;
      }
      if UrlKey(row) in seen {
        duplicates := duplicates + 1;
        continue;
      }
      seen := seen + {UrlKey(row)};
      if !e.splits(url) {
        assert RaisesAt(e, c.own, rows, i);
        return Err("URL cannot be taken apart");
      }
      if c.own != "" && DomainMatches(e, e.host(url), c.own) {
        own := own + 1;
        continue;
      }
      if rows[i].inaccessible || rows[i].fetchError {
        inaccessible := inaccessible + [url];
        continue;
      }
      if IntentOf(row) != "" {
        intents := intents + {IntentOf(row)};
      }
      if !rows[i].sized {
        assert RaisesAt(e, c.own, rows, i);
        return Err("entities have no length");
      }
      competitors := competitors + [CompetitorOf(e, c, row)];
    }
    assert rows[..|rows|] == rows;
    return Ok(Collected(seen, inaccessible, intents, competitors, duplicates, own));
  }

  // ----- The assessment -----

  datatype Assessment = Assessment(
    status: string, stale: bool, mixed: bool, inaccessible: seq<string>, capture: Capture,
    assessedAsOf: string, target: Option<string>, count: nat, duplicates: nat, own: nat,
    competitors: seq<Competitor>, bar: real, basis: string, weights: map<string, real>, missing: seq<string>)

  function MaxScore(cs: seq<Competitor>): real
    requires cs != []
  {
    if |cs| == 1 then cs[0].score
    else
      var rest := MaxScore(cs[1..]);
      if cs[0].score >= rest then cs[0].score else rest
  }

  predicate IsStale(e: Environment, captured: Value, asOf: string) {
    !captured.Truthy() ||
    match (e.day(captured.Shown()), if asOf == "" then Some(e.today) else e.day(asOf))
    case (Some(earlier), Some(current)) => current - earlier > STALE_AFTER_DAYS
    case _ => true
  }

  predicate Recorded(capture: Capture, key: string) {
    key in capture && capture[key].Truthy()
  }

  /** Some domain or some row makes `assess_serp` raise. */
  predicate Raises(e: Environment, own: string, known: set<string>, rows: seq<ResultRow>) {
    !e.splits(own) || (exists d :: d in known && !e.splits(d)) || RowsRaise(e, e.host(own), rows)
  }

  function SettingOf(
    e: Environment, own: string, known: set<string>, weights: map<string, real>, asOf: string, target: Option<string>):
    Setting
  {
    Setting(e.host(own), set d | d in known && e.host(d) != "" :: e.host(d), weights, target,
            Take(if asOf != "" then asOf else e.isoToday, 10))
  }

  /** `assess_serp`; an empty `asOf` stands for none. */
  function Assess(
    e: Environment, rows: seq<ResultRow>, capture: Capture, own: string, known: set<string>,
    supplied: map<string, real>, asOf: string, target: Option<string>): Result<Assessment, string>
  {
    if exists k :: k in REQUIRED_CAPTURE && !Recorded(capture, k) then
      Err("SERP capture must record query, locale, device, date and source")
    else if Weights(supplied).Err? then Err(Weights(supplied).error)
    else if Raises(e, own, known, rows) then Err("a URL cannot be taken apart, or entities have no length")
    else
      WeightsNormalised(supplied);
      assert REQUIRED_CAPTURE[3] == "date";
      assert Recorded(capture, "date");
      Summary(e, SettingOf(e, own, known, Weights(supplied).value, asOf, target), rows, capture)
  }

  function Summary(e: Environment, c: Setting, rows: seq<ResultRow>, capture: Capture):
    Result<Assessment, string>
    requires NameKeys(c.weights) && Recorded(capture, "date")
  {
    var s := CollectAll(e, c, rows);
    var stale := IsStale(e, capture["date"], c.asOf);
    if s.competitors == [] then
      Ok(Assessment("INSUFFICIENT_EVIDENCE", stale, false, s.inaccessible, capture, c.asOf, c.target, 0,
                    s.duplicates, s.own, [], 0.0, "kit_heuristic", c.weights, ["no readable competitor pages"]))
    else
      Ok(Assessment(if stale then "STALE_EVIDENCE" else "OK", stale, |s.intents| > 1, s.inaccessible, capture, c.asOf,
                    c.target, |s.competitors|, s.duplicates, s.own, s.competitors, MaxScore(s.competitors),
                    "kit_heuristic", c.weights, []))
  }

  // ----- The validator -----

  predicate Bounded(x: real, maximum: real) {
    0.0 <= x <= maximum
  }

  predicate CompetitorValid(e: Environment, x: Competitor) {
    && x.observed.textual && Strip(x.observed.url) == x.url && e.publicForm(x.url)
    && NameKeys(x.signals) && (forall n :: n in x.signals ==> Bounded(x.signals[n], 1.0))
    && Bounded(x.score, 100.0)
  }

  predicate CaptureCurrent(e: Environment, capture: Capture) {
    && (forall k :: k in REQUIRED_CAPTURE ==> k in capture && capture[k].Filled())
    && "date" in capture && capture["date"].Text? && e.moment(capture["date"].text).Some?
    && 0 <= e.today - e.moment(capture["date"].text).value <= STALE_AFTER_DAYS
  }

  /** `math.isclose(total, 1)` */
  predicate CloseToOne(total: real) {
    var gap := if total >= 1.0 then total - 1.0 else 1.0 - total;
    gap <= 0.000000001 * (if total >= 1.0 then total else 1.0)
  }

  predicate ScoresAgree(a: Assessment) {
    && NameKeys(a.weights) && (forall n :: n in a.weights ==> Bounded(a.weights[n], 1.0))
    && CloseToOne(Sum(NAMES, a.weights))
    && (forall x :: x in a.competitors ==> NameKeys(x.signals) && x.score == Score(x.signals, a.weights))
    && Bounded(a.bar, 100.0) && a.competitors != [] && a.bar == MaxScore(a.competitors)
  }

  predicate ObservationsAgree(a: Assessment) {
    |(set k | k in UrlKeys(a.competitors))| == |a.competitors| && a.mixed == (|IntentsOf(a.competitors)| > 1)
  }

  /** `_assessment_date` gives a day. */
  predicate DatesAgree(e: Environment, a: Assessment) {
    && "date" in a.capture && a.capture["date"].Text? && e.moment(a.capture["date"].text).Some?
    && e.day(a.assessedAsOf).Some?
    && e.moment(a.capture["date"].text).value <= e.day(a.assessedAsOf).value <= e.today
  }

  predicate SignalsAgree(e: Environment, a: Assessment) {
    DatesAgree(e, a)
    && forall x :: x in a.competitors ==> x.signals == Signals(e, x.observed, a.target, a.assessedAsOf)
  }

  predicate AvailabilityAgrees(a: Assessment) {
    forall u :: u in a.inaccessible ==> InaccessibleKey(u) !in UrlKeys(a.competitors)
  }

  /** `serp_evidence_valid` */
  predicate SerpEvidenceValid(e: Environment, a: Assessment) {
    && a.competitors != [] && (forall x :: x in a.competitors ==> CompetitorValid(e, x))
    && CaptureCurrent(e, a.capture) && !a.stale && a.count == |a.competitors| && a.missing == []
    && a.basis == "kit_heuristic" && ScoresAgree(a) && ObservationsAgree(a) && SignalsAgree(e, a) && AvailabilityAgrees(a)
  }

  // ----- Producer and validator agree -----

  lemma ProducedScores(e: Environment, c: Setting, cs: seq<Competitor>)
    requires Normalised(c.weights) && forall x :: x in cs ==> Made(e, c, x)
    ensures forall x :: x in cs ==>
                          NameKeys(x.signals) && (forall n :: n in x.signals ==> Bounded(x.signals[n], 1.0))
                          && Bounded(x.score, 100.0) && Strip(x.observed.url) == x.url
  {
    forall x | x in cs
      ensures NameKeys(x.signals) && (forall n :: n in x.signals ==> Bounded(x.signals[n], 1.0))
              && Bounded(x.score, 100.0) && Strip(x.observed.url) == x.url
    {
      ScoreBounds(e, x.observed, c.target, c.asOf, c.weights);
    }
  }

  lemma {:induction false} MaxIsOne(cs: seq<Competitor>)
    requires cs != []
    ensures exists x :: x in cs && x.score == MaxScore(cs)
    ensures forall x :: x in cs ==> x.score <= MaxScore(cs)
  {
    if |cs| > 1 {
      MaxIsOne(cs[1..]);
      assert cs == [cs[0]] + cs[1..];
      assert forall x :: x in cs <==> x == cs[0] || x in cs[1..];
    } else {
      assert cs[0] in cs && cs == [cs[0]];
    }
  }

  /** What `Coherent` and `ProducedScores` say of an assessment with competitors. */
  ghost predicate Produced(e: Environment, a: Assessment) {
    && a.competitors != [] && a.count == |a.competitors| && a.missing == [] && a.basis == "kit_heuristic"
    && Normalised(a.weights) && NoDuplicates(UrlKeys(a.competitors)) && AvailabilityAgrees(a)
    && a.mixed == (|IntentsOf(a.competitors)| > 1) && a.bar == MaxScore(a.competitors)
    && (forall x :: x in a.competitors ==>
                      x.signals == Signals(e, x.observed, a.target, a.assessedAsOf) && NameKeys(x.signals)
                      && x.score == Score(x.signals, a.weights) && Strip(x.observed.url) == x.url
                      && Bounded(x.score, 100.0) && forall n :: n in x.signals ==> Bounded(x.signals[n], 1.0))
  }

  lemma SummaryIsProduced(e: Environment, c: Setting, rows: seq<ResultRow>, capture: Capture)
    requires Normalised(c.weights) && Recorded(capture, "date")
    requires CollectAll(e, c, rows).competitors != []
    ensures Produced(e, Summary(e, c, rows, capture).value)
  {
    CollectedCoherent(e, c, rows);
    ProducedScores(e, c, CollectAll(e, c, rows).competitors);
  }

  lemma ProducedScoresAgree(e: Environment, a: Assessment)
    requires Produced(e, a)
    ensures ScoresAgree(a) && ObservationsAgree(a)
  {
    MaxIsOne(a.competitors);
    NoDuplicatesCardinality(UrlKeys(a.competitors));
  }

  predicate PublicUrl(e: Environment, o: Observed) {
    o.textual && e.publicForm(Strip(o.url))
  }

  lemma ProducedIsValidExactly(e: Environment, a: Assessment)
    requires Produced(e, a)
    ensures SerpEvidenceValid(e, a) <==>
            !a.stale && (forall x :: x in a.competitors ==> PublicUrl(e, x.observed))
            && CaptureCurrent(e, a.capture) && DatesAgree(e, a)
  {
    ProducedScoresAgree(e, a);
  }

  /** The date of the assessment: the first ten characters of `as_of`, or of today's date. */
  function AssessedOn(e: Environment, asOf: string): string {
    Take(if asOf != "" then asOf else e.isoToday, 10)
  }

  /** Every required field of the capture is a text and not blank. */
  predicate FieldsFilled(capture: Capture) {
    forall k :: k in REQUIRED_CAPTURE ==> k in capture && capture[k].Filled()
  }

  /** The full capture date and the date of the assessment parse, lie in order, neither in the future, and the capture
      is at most thirty days old. */
  predicate DatesInOrder(e: Environment, captured: Value, asOf: string) {
    captured.Text? &&
    match (e.moment(captured.text), e.day(AssessedOn(e, asOf)))
    case (Some(taken), Some(assessed)) => taken <= assessed <= e.today <= taken + STALE_AFTER_DAYS
    case _ => false
  }

  /** What the producer does not check of its inputs and the validator does. */
  ghost predicate Presentable(
    e: Environment, rows: seq<ResultRow>, capture: Capture, own: string, asOf: string)
  {
    && (forall i: nat :: KeptRow(e, e.host(own), rows, i) ==> PublicUrl(e, rows[i].observed))
    && FieldsFilled(capture) && "date" in capture && DatesInOrder(e, capture["date"], asOf)
  }

  lemma PublicExactly(e: Environment, c: Setting, rows: seq<ResultRow>)
    requires NameKeys(c.weights)
    ensures
      (forall x :: x in CollectAll(e, c, rows).competitors ==> PublicUrl(e, x.observed)) <==>
      (forall i: nat :: KeptRow(e, c.own, rows, i) ==> PublicUrl(e, rows[i].observed))
  {
    var cs := CollectAll(e, c, rows).competitors;
    if forall x :: x in cs ==> PublicUrl(e, x.observed) {
      forall i: nat | KeptRow(e, c.own, rows, i)
        ensures PublicUrl(e, rows[i].observed)
      {
        CompetitorsExactly(e, c, rows, CompetitorOf(e, c, rows[i].observed));
      }
    }
    if forall i: nat :: KeptRow(e, c.own, rows, i) ==> PublicUrl(e, rows[i].observed) {
      forall x | x in cs
        ensures PublicUrl(e, x.observed)
      {
        CompetitorsExactly(e, c, rows, x);
      }
    }
  }

  lemma SummaryIsValidExactly(e: Environment, c: Setting, rows: seq<ResultRow>, capture: Capture)
    requires Normalised(c.weights) && Recorded(capture, "date")
    ensures
      var a := Summary(e, c, rows, capture).value;
      && (a.status == "OK" <==> (exists i: nat :: KeptRow(e, c.own, rows, i)) && !IsStale(e, capture["date"], c.asOf))
      && (SerpEvidenceValid(e, a) <==>
          a.status == "OK" && (forall i: nat :: KeptRow(e, c.own, rows, i) ==> PublicUrl(e, rows[i].observed))
          && CaptureCurrent(e, capture) && DatesAgree(e, a))
  {
    SomeCompetitor(e, c, rows);
    if CollectAll(e, c, rows).competitors != [] {
      SummaryIsProduced(e, c, rows, capture);
      ProducedIsValidExactly(e, Summary(e, c, rows, capture).value);
      PublicExactly(e, c, rows);
    }
  }

  lemma CaptureExactly(e: Environment, a: Assessment, asOf: string)
    requires a.assessedAsOf == AssessedOn(e, asOf)
    ensures CaptureCurrent(e, a.capture) && DatesAgree(e, a) <==>
            FieldsFilled(a.capture) && "date" in a.capture && DatesInOrder(e, a.capture["date"], asOf)
  {
  }

  /** The validator accepts what the producer made exactly when some row was kept, the capture was not stale and the
      inputs are presentable: nothing else can make the two disagree. */
  lemma AssessedIsValidExactly(
    e: Environment, rows: seq<ResultRow>, capture: Capture, own: string, known: set<string>,
    supplied: map<string, real>, asOf: string, target: Option<string>)
    requires Assess(e, rows, capture, own, known, supplied, asOf, target).Ok?
    ensures Recorded(capture, "date")
    ensures
      var a := Assess(e, rows, capture, own, known, supplied, asOf, target).value;
      && (a.status == "OK" <==> (exists i: nat :: KeptRow(e, e.host(own), rows, i))
                                && !IsStale(e, capture["date"], AssessedOn(e, asOf)))
      && (SerpEvidenceValid(e, a) <==> a.status == "OK" && Presentable(e, rows, capture, own, asOf))
  {
    WeightsNormalised(supplied);
    assert REQUIRED_CAPTURE[3] == "date";
    assert Recorded(capture, "date");
    var c := SettingOf(e, own, known, Weights(supplied).value, asOf, target);
    SummaryIsValidExactly(e, c, rows, capture);
    CaptureExactly(e, Summary(e, c, rows, capture).value, asOf);
  }

  /** Recorded captures, accepted weights, a kept row and no staleness give an OK report. */
  lemma ReportedOk(
    e: Environment, rows: seq<ResultRow>, capture: Capture, own: string, known: set<string>,
    supplied: map<string, real>, asOf: string, target: Option<string>, i: nat)
    requires (forall k :: k in REQUIRED_CAPTURE ==> Recorded(capture, k)) && Weights(supplied).Ok?
    requires !Raises(e, own, known, rows)
    requires KeptRow(e, e.host(own), rows, i) && "date" in capture && !IsStale(e, capture["date"], AssessedOn(e, asOf))
    ensures
      var r := Assess(e, rows, capture, own, known, supplied, asOf, target);
      && r.Ok? && r.value.status == "OK"
      && (SerpEvidenceValid(e, r.value) <==> Presentable(e, rows, capture, own, asOf))
  {
    AssessedIsValidExactly(e, rows, capture, own, known, supplied, asOf, target);
  }

  /** Some row is kept and all kept rows are public, nothing raises, the capture fields are texts and not blank, the two
      ways to read the capture date agree, and the dates lie in order: such inputs are always assessed as OK and always
      accepted. */
  lemma GoodInputsAccepted(
    e: Environment, rows: seq<ResultRow>, capture: Capture, own: string, known: set<string>,
    supplied: map<string, real>, asOf: string, target: Option<string>)
    requires Weights(supplied).Ok? && (exists i: nat :: KeptRow(e, e.host(own), rows, i))
    requires Presentable(e, rows, capture, own, asOf)
    requires e.day(capture["date"].text) == e.moment(capture["date"].text) && !Raises(e, own, known, rows)
    ensures
      var r := Assess(e, rows, capture, own, known, supplied, asOf, target);
      r.Ok? && r.value.status == "OK" && SerpEvidenceValid(e, r.value)
  {
    forall k | k in REQUIRED_CAPTURE
      ensures Recorded(capture, k)
    {
      assert Strip("") == "";
    }
    AssessedIsValidExactly(e, rows, capture, own, known, supplied, asOf, target);
    assert REQUIRED_CAPTURE[3] == "date";
  }

  // ----- Validation on another day -----

  /** The same library, on another day. */
  ghost predicate OtherDay(e: Environment, v: Environment) {
    v == e.(today := v.today, isoToday := v.isoToday)
  }

  lemma CompetitorAnyDay(e: Environment, v: Environment, c: Setting, o: Observed)
    requires OtherDay(e, v) && NameKeys(c.weights) && c.asOf != ""
    ensures CompetitorOf(e, c, o) == CompetitorOf(v, c, o)
  {
    assert Signals(e, o, c.target, c.asOf) == Signals(v, o, c.target, c.asOf);
  }

  lemma {:induction false} CollectAnyDay(e: Environment, v: Environment, c: Setting, rows: seq<ResultRow>)
    requires OtherDay(e, v) && NameKeys(c.weights) && c.asOf != ""
    ensures CollectAll(e, c, rows) == CollectAll(v, c, rows)
  {
    if rows != [] {
      CollectAnyDay(e, v, c, rows[..|rows| - 1]);
      CompetitorAnyDay(e, v, c, rows[|rows| - 1].observed);
    }
  }

  lemma RaisesAnyDay(e: Environment, v: Environment, own: string, known: set<string>, rows: seq<ResultRow>)
    requires OtherDay(e, v)
    ensures Raises(e, own, known, rows) <==> Raises(v, own, known, rows)
  {
    assert forall i: nat :: i < |rows| ==> RaisesAt(e, e.host(own), rows, i) == RaisesAt(v, v.host(own), rows, i);
  }

  lemma SummaryAnyDay(e: Environment, v: Environment, c: Setting, rows: seq<ResultRow>, capture: Capture)
    requires OtherDay(e, v) && NameKeys(c.weights) && c.asOf != "" && Recorded(capture, "date")
    ensures Summary(e, c, rows, capture) == Summary(v, c, rows, capture)
  {
    CollectAnyDay(e, v, c, rows);
  }

  /** An assessment depends on the day only through its date: it is the one made on any other day for that date. */
  lemma AssessAnyDay(
    e: Environment, v: Environment, rows: seq<ResultRow>, capture: Capture, own: string, known: set<string>,
    supplied: map<string, real>, asOf: string, target: Option<string>)
    requires OtherDay(e, v) && AssessedOn(e, asOf) != ""
    ensures Assess(e, rows, capture, own, known, supplied, asOf, target) ==
            Assess(v, rows, capture, own, known, supplied, AssessedOn(e, asOf), target)
  {
    RaisesAnyDay(e, v, own, known, rows);
    if Weights(supplied).Ok? && Recorded(capture, "date") {
      WeightsNormalised(supplied);
      var c := SettingOf(e, own, known, Weights(supplied).value, asOf, target);
      assert c == SettingOf(v, own, known, Weights(supplied).value, AssessedOn(e, asOf), target);
      SummaryAnyDay(e, v, c, rows, capture);
    }
  }

  /** So validation on whatever day accepts exactly OK assessments whose inputs are presentable on that day: the capture
      must still be at most thirty days old, and nothing else can have changed. */
  lemma AssessedIsValidLater(
    e: Environment, v: Environment, rows: seq<ResultRow>, capture: Capture, own: string, known: set<string>,
    supplied: map<string, real>, asOf: string, target: Option<string>)
    requires OtherDay(e, v) && AssessedOn(e, asOf) != ""
    requires Assess(e, rows, capture, own, known, supplied, asOf, target).Ok?
    ensures
      var a := Assess(e, rows, capture, own, known, supplied, asOf, target).value;
      SerpEvidenceValid(v, a) <==> a.status == "OK" && Presentable(v, rows, capture, own, AssessedOn(e, asOf))
  {
    AssessAnyDay(e, v, rows, capture, own, known, supplied, asOf, target);
    AssessedIsValidExactly(v, rows, capture, own, known, supplied, AssessedOn(e, asOf), target);
  }

  /** The bar of every assessment with competitors is the best score, and no score leaves 0 to 100. */
  lemma BarIsBest(
    e: Environment, rows: seq<ResultRow>, capture: Capture, own: string, known: set<string>,
    supplied: map<string, real>, asOf: string, target: Option<string>)
    requires Assess(e, rows, capture, own, known, supplied, asOf, target).Ok?
    ensures
      var a := Assess(e, rows, capture, own, known, supplied, asOf, target).value;
      a.competitors != [] ==>
      && (forall x :: x in a.competitors ==> 0.0 <= x.score <= a.bar <= 100.0)
      && (exists x :: x in a.competitors && x.score == a.bar)
  {
    WeightsNormalised(supplied);
    assert REQUIRED_CAPTURE[3] == "date";
    var c := SettingOf(e, own, known, Weights(supplied).value, asOf, target);
    if CollectAll(e, c, rows).competitors != [] {
      SummaryIsProduced(e, c, rows, capture);
      MaxIsOne(CollectAll(e, c, rows).competitors);
    }
  }
}
