/** The parts of the executive-dashboard endpoint in
    apx-app/src/sobeys_scctower/backend/router.py that are decided by the
    backend itself rather than by the warehouse: the schema prefix of every
    query, the OTIF card derived from the fill-rate card, and the supplier
    performance list built from supplier names. */
module Dashboard {
  import opened Wrappers
  import opened Core

  /** `_schema`: the `catalog.schema` prefix the endpoints put in front of
      every table, the settings' catalog and schema joined by one dot. */
  function Schema(config: AppConfig): (r: string)
    ensures |r| == |config.catalog| + 1 + |config.schemaName|
    ensures r[..|config.catalog|] == config.catalog && r[|config.catalog|] == '.'
    ensures r[|config.catalog| + 1..] == config.schemaName
  {
    config.FullSchema()
  }

  /** With a dot-free catalog the prefix splits back into catalog and schema. */
  lemma SchemaSplits(config: AppConfig)
    requires '.' !in config.catalog
    ensures SplitQualified(Schema(config)) == (config.catalog, config.schemaName)
  {
    FullSchemaSplits(config);
  }

  // ---------------------------------------------------------------- KPI cards

  /** A card's `value` key: missing, explicitly null, or a number. */
  datatype CardValue = Missing | NullValue | Number(n: real)

  /** A KPI card as loaded from the metrics file; `title` stands for the
      display fields the backend does not touch. */
  datatype KpiCard = KpiCard(id: Option<string>, title: string, value: CardValue)

  /** The default fill rate of a fill-rate card without a value. */
  const DefaultFillRate: real := 95.0

  /** `card.get("value", 95)` read as a fill rate: None stands for Python's None. */
  function FillRateOf(card: KpiCard): Option<real> {
    match card.value
    case Missing => Some(DefaultFillRate)
    case NullValue => None
    case Number(n) => Some(n)
  }

  predicate IsFillRateCard(card: KpiCard) { card.id == Some("fill_rate") }
  predicate IsOtifCard(card: KpiCard) { card.id == Some("otif") }

  /** The fill rate the endpoint settles on: the reading of the last
      fill-rate card, or None when there is no such card. */
  function FillRate(cards: seq<KpiCard>): Option<real> {
    if |cards| == 0 then None
    else if IsFillRateCard(cards[|cards| - 1]) then FillRateOf(cards[|cards| - 1])
    else FillRate(cards[..|cards| - 1])
  }

  /** With no fill-rate card there is no fill rate. */
  lemma {:induction false} FillRateAbsent(cards: seq<KpiCard>)
    requires forall i :: 0 <= i < |cards| ==> !IsFillRateCard(cards[i])
    ensures FillRate(cards) == None
  {
    if |cards| > 0 {
      var n := |cards| - 1;
      assert forall i :: 0 <= i < n ==> cards[..n][i] == cards[i];
      FillRateAbsent(cards[..n]);
    }
  }

  /** The endpoint's loop over the cards keeps overwriting the fill rate, so
      the card that counts is the last fill-rate card. */
  lemma {:induction false} FillRateIsLastCard(cards: seq<KpiCard>, i: int)
    requires 0 <= i < |cards| && IsFillRateCard(cards[i])
    requires forall j :: i < j < |cards| ==> !IsFillRateCard(cards[j])
    ensures FillRate(cards) == FillRateOf(cards[i])
  {
    var n := |cards| - 1;
    if i < n {
      assert cards[..n][i] == cards[i];
      assert forall j :: i < j < n ==> cards[..n][j] == cards[j];
      FillRateIsLastCard(cards[..n], i);
    }
  }

  /** Shows `fillRate` minus three points on every OTIF card, when a fill rate is known. */
  function SetOtif(cards: seq<KpiCard>, fillRate: Option<real>): (r: seq<KpiCard>)
    ensures |r| == |cards|
    ensures forall i :: 0 <= i < |cards| && !IsOtifCard(cards[i]) ==> r[i] == cards[i]
    ensures fillRate == None ==> r == cards
    ensures fillRate.Some?
            ==> forall i :: 0 <= i < |cards| && IsOtifCard(cards[i])
                  ==> r[i] == cards[i].(value := Number(fillRate.value - 3.0))
  {
    if fillRate.None? then cards
    else seq(|cards|, i requires 0 <= i < |cards| =>
               if IsOtifCard(cards[i]) then cards[i].(value := Number(fillRate.value - 3.0)) else cards[i])
  }

  /** The OTIF derivation of `get_executive_dashboard`: when a fill rate is
      known every OTIF card shows it minus three points; all other cards, and
      all cards when no fill rate is known, are left as they are. */
  function DeriveOtif(cards: seq<KpiCard>): (r: seq<KpiCard>)
    ensures |r| == |cards|
    ensures forall i :: 0 <= i < |cards| && !IsOtifCard(cards[i]) ==> r[i] == cards[i]
    ensures FillRate(cards) == None ==> r == cards
    ensures FillRate(cards).Some?
            ==> forall i :: 0 <= i < |cards| && IsOtifCard(cards[i])
                  ==> r[i] == cards[i].(value := Number(FillRate(cards).value - 3.0))
  {
    SetOtif(cards, FillRate(cards))
  }

  /** Rewriting OTIF cards never changes a fill-rate card, so the fill rate
      read after the derivation is the one read before it. */
  lemma {:induction false} FillRatePreserved(cards: seq<KpiCard>, r: seq<KpiCard>)
    requires |r| == |cards|
    requires forall i :: 0 <= i < |cards| ==> (IsFillRateCard(r[i]) <==> IsFillRateCard(cards[i]))
    requires forall i :: 0 <= i < |cards| && IsFillRateCard(cards[i]) ==> r[i] == cards[i]
    ensures FillRate(r) == FillRate(cards)
  {
    if |cards| > 0 {
      var n := |cards| - 1;
      if !IsFillRateCard(cards[n]) {
        assert forall i :: 0 <= i < n ==> r[..n][i] == r[i] && cards[..n][i] == cards[i];
        FillRatePreserved(cards[..n], r[..n]);
      }
    }
  }

  /** Deriving OTIF twice gives the same cards as deriving it once. */
  lemma DeriveOtifIdempotent(cards: seq<KpiCard>)
    ensures DeriveOtif(DeriveOtif(cards)) == DeriveOtif(cards)
  {
    var fr := FillRate(cards);
    var once := SetOtif(cards, fr);
    assert forall i :: 0 <= i < |cards| && IsFillRateCard(cards[i]) ==> !IsOtifCard(cards[i]);
    FillRatePreserved(cards, once);
    var twice := SetOtif(once, fr);
    assert forall i :: 0 <= i < |once| ==> twice[i] == once[i];
  }

  // ---------------------------------------------------------------- Supplier performance

  /** One entry of the supplier performance list. */
  datatype SupplierPerformance = SupplierPerformance(
    name: string, onTimeDelivery: int, qualityScore: int, leadTime: string, riskScore: string)

  /** The ten fixed (on-time %, quality, lead time, risk) tuples the endpoint
      assigns to suppliers. */
  const SupplierMetrics: seq<(int, int, string, string)> := [
    (98, 95, "7 days", "Low"),
    (92, 88, "10 days", "Medium"),
    (95, 92, "8 days", "Low"),
    (85, 80, "14 days", "High"),
    (90, 85, "12 days", "Medium"),
    (97, 93, "6 days", "Low"),
    (88, 82, "11 days", "Medium"),
    (94, 90, "9 days", "Low"),
    (82, 78, "15 days", "High"),
    (91, 87, "10 days", "Medium")
  ]

  /** `str(r.get("name", ""))`: a null cell prints as "None". */
  function SupplierName(row: Row): string {
    if "name" in row then
      match row["name"]
      case Null => "None"
      case Str(s) => s
    else ""
  }

  /** The list entry for one supplier name; `digest` is the MD5 digest of the
      name's bytes read as a hexadecimal number. */
  function SupplierEntry(name: string, digest: string -> nat): SupplierPerformance {
    var (otd, quality, leadTime, risk) := SupplierMetrics[digest(name) % |SupplierMetrics|];
    SupplierPerformance(name, otd, quality, leadTime, risk)
  }

  /** The supplier list of `get_executive_dashboard`: one entry per returned
      row, in row order, named after the row, with metrics drawn from the
      fixed table by the digest of the name modulo ten. */
  function ShapeSuppliers(rows: seq<Row>, digest: string -> nat): (r: seq<SupplierPerformance>)
    ensures |r| == |rows|
    ensures forall i :: 0 <= i < |rows| ==> r[i].name == SupplierName(rows[i])
    ensures forall i :: 0 <= i < |rows| ==>
              (r[i].onTimeDelivery, r[i].qualityScore, r[i].leadTime, r[i].riskScore)
              == SupplierMetrics[digest(r[i].name) % 10]
  {
    seq(|rows|, i requires 0 <= i < |rows| => SupplierEntry(SupplierName(rows[i]), digest))
  }

  /** Every supplier gets one of the ten fixed tuples, and two rows with the
      same name get the same metrics. */
  lemma SupplierMetricsFromTable(rows: seq<Row>, digest: string -> nat, i: int, j: int)
    requires 0 <= i < |rows| && 0 <= j < |rows|
    requires SupplierName(rows[i]) == SupplierName(rows[j])
    ensures var r := ShapeSuppliers(rows, digest);
            (exists k :: 0 <= k < 10 && (r[i].onTimeDelivery, r[i].qualityScore, r[i].leadTime, r[i].riskScore) == SupplierMetrics[k])
            && r[i] == r[j]
  {
    var r := ShapeSuppliers(rows, digest);
    var k := digest(r[i].name) % 10;
    assert (r[i].onTimeDelivery, r[i].qualityScore, r[i].leadTime, r[i].riskScore) == SupplierMetrics[k];
  }

  /** The supplier section is replaced only when the query returned rows and
      the metrics file declares the section; otherwise it stays as loaded. */
  function EnrichSuppliers(section: Option<seq<SupplierPerformance>>, rows: seq<Row>, digest: string -> nat)
    : (r: Option<seq<SupplierPerformance>>)
    ensures |rows| == 0 || section.None? ==> r == section
    ensures |rows| > 0 && section.Some? ==> r == Some(ShapeSuppliers(rows, digest))
  {
    if |rows| > 0 && section.Some? then Some(ShapeSuppliers(rows, digest)) else section
  }
}
