/** The three pipeline stages: the miner's synthetic signals, the validator's fixed checks and
    the synthesizer's fit score and wedge. Each stage is a pure function of the lead. */
module Agents {
  import opened Results
  import opened Text

  /** A lead as submitted: text fields by name. */
  type Lead = map<string, string>

  const UnknownCompany: string := "Unknown Co"

  /** `lead.get("company") or lead.get("name", "Unknown Co")`: a non-empty company, else the
      name when the field is present (even an empty one), else the placeholder. */
  function CompanyOf(lead: Lead): (c: string)
    ensures "company" in lead && lead["company"] != "" ==> c == lead["company"]
    ensures !("company" in lead && lead["company"] != "") ==>
              c == (if "name" in lead then lead["name"] else UnknownCompany)
  {
    if "company" in lead && lead["company"] != "" then lead["company"]
    else if "name" in lead then lead["name"]
    else UnknownCompany
  }

  /** The company depends on the `company` and `name` fields alone. */
  lemma CompanyOfReadsNameFields(a: Lead, b: Lead)
    requires ("company" in a <==> "company" in b) && ("company" in a ==> a["company"] == b["company"])
    requires ("name" in a <==> "name" in b) && ("name" in a ==> a["name"] == b["name"])
    ensures CompanyOf(a) == CompanyOf(b)
  {
  }

  // ---------------------------------------------------------------- miner

  /** What the miner hands on; `signals` is absent when a producer omits it. */
  datatype Mined = Mined(company: string, signals: Option<seq<string>>)

  const MinedCostTail: string := " mentioned cost pressures on forums"

  /** `Miner.run`: two synthetic signals about the company, the first about cost pressure. */
  function Mine(lead: Lead): (m: Mined)
    ensures m.company == CompanyOf(lead)
    ensures m.signals.Some? && |m.signals.value| == 2
    ensures forall i :: 0 <= i < |m.signals.value| ==> IsPrefix(m.company, m.signals.value[i])
    ensures Contains(m.signals.value[0], "cost")
  {
    var company := CompanyOf(lead);
    var first := company + MinedCostTail;
    assert OccursAt(MinedCostTail, "cost", 11) by {
      assert MinedCostTail[11] == 'c' && MinedCostTail[12] == 'o' && MinedCostTail[13] == 's' && MinedCostTail[14] == 't';
    }
    OccursInRight(company, MinedCostTail, "cost", 11);
    Mined(company, Some([first, company + " evaluating cloud spend reduction"]))
  }

  // ---------------------------------------------------------------- validator

  /** What the validator hands on; either list is absent when a producer omits it. */
  datatype Validated = Validated(company: string, techStack: Option<seq<string>>, risks: Option<seq<string>>)

  /** `Validator.run`: the fixed inferred stack and a single risk. */
  function Validate(lead: Lead): (v: Validated)
    ensures v.company == CompanyOf(lead)
    ensures v.techStack == Some(["AWS", "Salesforce"])
    ensures v.risks.Some? && |v.risks.value| == 1
  {
    Validated(CompanyOf(lead), Some(["AWS", "Salesforce"]), Some(["Unknown budget owner"]))
  }

  /** Neither the miner nor the validator looks at any field but `company` and `name`. */
  lemma StagesReadNameFields(a: Lead, b: Lead)
    requires ("company" in a <==> "company" in b) && ("company" in a ==> a["company"] == b["company"])
    requires ("name" in a <==> "name" in b) && ("name" in a ==> a["name"] == b["name"])
    ensures Mine(a) == Mine(b) && Validate(a) == Validate(b)
  {
    CompanyOfReadsNameFields(a, b);
  }

  // ---------------------------------------------------------------- synthesizer

  /** The synthesizer's record. */
  datatype Synthesis = Synthesis(company: string, fitScore: int, wedge: string,
                                 techStack: seq<string>, signals: seq<string>)

  const RiskPenalty: int := 5

  /** `max(0, min(100, base - 5 * risks))`, with base 90 when there are signals and 70
      otherwise. */
  function FitScore(hasSignals: bool, risks: nat): (s: int)
    ensures 0 <= s <= 100
    ensures s == 0 <==> RiskPenalty * risks >= (if hasSignals then 90 else 70)
    ensures s > 0 ==> s + RiskPenalty * risks == (if hasSignals then 90 else 70)
  {
    var base := if hasSignals then 90 else 70;
    var raw := base - RiskPenalty * risks;
    var capped := if raw < 100 then raw else 100;
    if capped > 0 then capped else 0
  }

  /** Each further risk lowers the score or leaves it at zero. */
  lemma FitScoreNonIncreasing(hasSignals: bool, fewer: nat, more: nat)
    requires fewer <= more
    ensures FitScore(hasSignals, more) <= FitScore(hasSignals, fewer)
  {
  }

  /** Having signals never lowers the score. */
  lemma FitScoreSignalsHelp(risks: nat)
    ensures FitScore(false, risks) <= FitScore(true, risks)
  {
  }

  const CostWedgeTail: string := " faces cost pressure; lead with ROI and consolidation."
  const PricingWedgeTail: string := " can trim tooling costs with your bundled pricing."

  function CostWedge(company: string): string {
    company + CostWedgeTail
  }

  function PricingWedge(company: string): string {
    company + PricingWedgeTail
  }

  /** The wedge sentence: the cost-pressure one exactly when "cost" occurs, ignoring case, in
      the space-joined signals; the bundled-pricing one otherwise. Both name the company
      first. */
  function Wedge(company: string, signals: seq<string>): (w: string)
    ensures IsPrefix(company, w)
    ensures Contains(Lower(Join(signals, " ")), "cost") ==> w == CostWedge(company)
    ensures !Contains(Lower(Join(signals, " ")), "cost") ==> w == PricingWedge(company)
  {
    if Contains(Lower(Join(signals, " ")), "cost") then CostWedge(company) else PricingWedge(company)
  }

  /** The cost wedge is chosen exactly when some single signal mentions "cost" in any case. */
  lemma WedgeFromOneSignal(company: string, signals: seq<string>)
    ensures Wedge(company, signals) == CostWedge(company) <==>
            exists i :: 0 <= i < |signals| && Contains(Lower(signals[i]), "cost")
  {
    ContainsLowerJoin(signals, "cost");
    if !Contains(Lower(Join(signals, " ")), "cost") {
      assert |PricingWedge(company)| != |CostWedge(company)|;
    }
  }

  /** `Synthesizer.run`. */
  function Synthesize(lead: Lead, mined: Mined, validated: Validated): (r: Synthesis)
    ensures r.company == CompanyOf(lead)
    ensures r.signals == mined.signals.GetOr([])
    ensures r.techStack == validated.techStack.GetOr([])
    ensures 0 <= r.fitScore <= 100
    ensures r.fitScore == FitScore(|r.signals| > 0, |validated.risks.GetOr([])|)
    ensures r.wedge == Wedge(r.company, r.signals)
  {
    var company := CompanyOf(lead);
    var signals := mined.signals.GetOr([]);
    Synthesis(company, FitScore(|signals| > 0, |validated.risks.GetOr([])|),
              Wedge(company, signals), validated.techStack.GetOr([]), signals)
  }

  /** Lowering keeps a needle written in lower case where it stood. */
  lemma LowerKeepsCost(s: string, i: int)
    requires OccursAt(s, "cost", i)
    ensures OccursAt(Lower(s), "cost", i)
  {
    assert Lower(s)[i..i + 4] == [LowerChar(s[i]), LowerChar(s[i + 1]), LowerChar(s[i + 2]), LowerChar(s[i + 3])];
  }

  /** Run on the miner's and validator's output, the synthesizer always scores 85 (two
      signals, one risk) and always picks the cost wedge, since the miner's first signal
      mentions cost. */
  lemma StagesAlwaysScore85(lead: Lead)
    ensures var r := Synthesize(lead, Mine(lead), Validate(lead));
            r.fitScore == 85 && r.wedge == CostWedge(CompanyOf(lead)) && r.techStack == ["AWS", "Salesforce"]
  {
    var signals := Mine(lead).signals.value;
    var company := CompanyOf(lead);
    var i := |company| + 11;
    assert OccursAt(MinedCostTail, "cost", 11) by {
      assert MinedCostTail[11] == 'c' && MinedCostTail[12] == 'o' && MinedCostTail[13] == 's' && MinedCostTail[14] == 't';
    }
    OccursInRight(company, MinedCostTail, "cost", 11);
    LowerKeepsCost(signals[0], i);
    ContainsWitness(Lower(signals[0]), "cost", i);
    WedgeFromOneSignal(company, signals);
  }
}
