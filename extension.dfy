/** The per-outpost configuration attached to an outpost's def: which pawns
    it takes, what it costs, what it produces and how long things take. */
module Config {
  import opened Common
  import opened Things
  import opened Utils

  /** A skill requirement or a per-skill production term. */
  datatype AmountBySkill = AmountBySkill(count: int, skill: SkillDef) {
    /** The count multiplied by the group's cumulative level in the skill. */
    function Amount(pawns: seq<Pawn>): int
      requires AllHaveSkills(pawns)
    {
      count * GetCumulativeSkill(pawns, skill)
    }
  }

  /** A node of the configuration document: an element has a name and
      children, a text node has a value. */
  datatype XmlNode = XmlNode(name: string, children: seq<XmlNode>, value: Option<string>)

  /** Whether a node's single child holds text that parses as a count. */
  predicate LoadableXml(node: XmlNode) {
    |node.children| == 1 ==>
      node.children[0].value.Some? && ParseInt(node.children[0].value.value).Some?
  }

  /** The error the loader logs for a misconfigured entry. */
  datatype LoadError = Misconfigured(node: XmlNode)

  /** Loads an `AmountBySkill` from its node, starting from the entry's
      current values. A node without exactly one child is reported and
      leaves the entry as it was. A single child that is not text makes the
      integer parser throw on a null string, and text that is not an
      integer makes it throw on the format. */
  function LoadFromXml(current: AmountBySkill, node: XmlNode): (r: Outcome<(AmountBySkill, Option<LoadError>)>)
    ensures r.Throws? <==> !LoadableXml(node)
    ensures r.Returns? ==> (|node.children| != 1 <==> r.value.1.Some?)
    ensures |node.children| != 1 ==> r == Returns((current, Some(Misconfigured(node))))
    ensures r.Returns? && |node.children| == 1 ==>
              r.value.0.skill == node.name &&
              Some(r.value.0.count) == ParseInt(node.children[0].value.value)
  {
    if |node.children| != 1 then Returns((current, Some(Misconfigured(node))))
    else if node.children[0].value.None? then Throws("ArgumentNullException")
    else
      var count := ParseInt(node.children[0].value.value);
      if count.None? then Throws("FormatException")
      else Returns((AmountBySkill(count.value, node.name), None))
  }

  /** The document form of an entry: `<Skill>count</Skill>`. */
  function XmlOf(a: AmountBySkill): XmlNode {
    XmlNode(a.skill, [XmlNode("#text", [], Some(IntToString(a.count)))], None)
  }

  /** Loading the document form of an entry gives back that entry, whatever
      the entry held before. */
  lemma LoadXmlRoundTrip(a: AmountBySkill, current: AmountBySkill)
    ensures LoadableXml(XmlOf(a))
    ensures LoadFromXml(current, XmlOf(a)) == Returns((a, None))
  {
    ParseIntToString(a.count);
  }

  /** Each pawn adds its own share to a per-skill term. */
  lemma AmountBySkillAdditive(a: AmountBySkill, p: seq<Pawn>, q: seq<Pawn>)
    requires AllHaveSkills(p) && AllHaveSkills(q)
    ensures AllHaveSkills(p + q)
    ensures a.Amount(p + q) == a.Amount(p) + a.Amount(q)
  {
    CumulativeSkillAppend(p, q, a.skill);
  }

  /** One of the things an outpost can produce, and how much of it. Either
      per-skill list is None when the configuration leaves it out. */
  datatype ResultOption = ResultOption(
    amountPerPawn: int,
    amountsPerSkills: Option<seq<AmountBySkill>>,
    baseAmount: int,
    minAmountsPerSkills: Option<seq<AmountBySkill>>,
    thing: ThingDef)

  function SkillTermsSum(terms: seq<AmountBySkill>, pawns: seq<Pawn>): int
    requires AllHaveSkills(pawns)
  {
    if terms == [] then 0 else terms[0].Amount(pawns) + SkillTermsSum(terms[1..], pawns)
  }

  /** The amount before the production multiplier: the base, plus a share
      per pawn, plus the per-skill terms, none when the list is missing. */
  function PreScaleAmount(option: ResultOption, pawns: seq<Pawn>): int
    requires AllHaveSkills(pawns)
  {
    option.baseAmount + option.amountPerPawn * |pawns| + SkillTermsSum(OrEmpty(option.amountsPerSkills), pawns)
  }

  /** The amount produced, scaled by the production multiplier and rounded
      to the nearest integer. */
  function Amount(option: ResultOption, pawns: seq<Pawn>, productionMultiplier: real): (r: int)
    requires AllHaveSkills(pawns)
    ensures PreScaleAmount(option, pawns) as real * productionMultiplier - 0.5 <= r as real
    ensures r as real <= PreScaleAmount(option, pawns) as real * productionMultiplier + 0.5
  {
    Scale(PreScaleAmount(option, pawns), productionMultiplier)
  }

  /** With the multiplier at 1 the amount is exactly the unscaled amount. */
  lemma AmountUnscaled(option: ResultOption, pawns: seq<Pawn>)
    requires AllHaveSkills(pawns)
    ensures Amount(option, pawns, 1.0) == PreScaleAmount(option, pawns)
  {
    var n := PreScaleAmount(option, pawns);
    assert n as real * 1.0 == n as real;
  }

  lemma {:induction false} SkillTermsAdditive(terms: seq<AmountBySkill>, p: seq<Pawn>, q: seq<Pawn>)
    requires AllHaveSkills(p) && AllHaveSkills(q)
    ensures AllHaveSkills(p + q)
    ensures SkillTermsSum(terms, p + q) == SkillTermsSum(terms, p) + SkillTermsSum(terms, q)
  {
    CumulativeSkillAppend(p, q, "");
    if terms != [] {
      AmountBySkillAdditive(terms[0], p, q);
      SkillTermsAdditive(terms[1..], p, q);
    }
  }

  /** Splitting a group of pawns in two: the unscaled amount of the whole
      group is what the two halves make, with the base counted once. */
  lemma PreScaleAmountAdditive(option: ResultOption, p: seq<Pawn>, q: seq<Pawn>)
    requires AllHaveSkills(p) && AllHaveSkills(q)
    ensures AllHaveSkills(p + q)
    ensures PreScaleAmount(option, p + q)
         == PreScaleAmount(option, p) + PreScaleAmount(option, q) - option.baseAmount
  {
    SkillTermsAdditive(OrEmpty(option.amountsPerSkills), p, q);
  }

  lemma {:induction false} SkillTermsPermutation(terms: seq<AmountBySkill>, p: seq<Pawn>, q: seq<Pawn>)
    requires AllHaveSkills(p) && multiset(p) == multiset(q)
    ensures AllHaveSkills(q)
    ensures SkillTermsSum(terms, p) == SkillTermsSum(terms, q)
  {
    CumulativeSkillPermutation(p, q, "");
    if terms != [] {
      CumulativeSkillPermutation(p, q, terms[0].skill);
      SkillTermsPermutation(terms[1..], p, q);
    }
  }

  /** The amount depends on which pawns are present, not on their order. */
  lemma AmountPermutation(option: ResultOption, p: seq<Pawn>, q: seq<Pawn>, productionMultiplier: real)
    requires AllHaveSkills(p) && multiset(p) == multiset(q)
    ensures AllHaveSkills(q)
    ensures Amount(option, p, productionMultiplier) == Amount(option, q, productionMultiplier)
  {
    SkillTermsPermutation(OrEmpty(option.amountsPerSkills), p, q);
    assert |p| == |multiset(p)| == |q|;
  }

  /** The stacks an option produces. */
  function Make(option: ResultOption, pawns: seq<Pawn>, productionMultiplier: real): seq<Thing>
    requires AllHaveSkills(pawns) && option.thing.stackLimit > 0
  {
    MadeStacks(option.thing, Amount(option, pawns, productionMultiplier))
  }

  /** What is made holds exactly the amount, in stacks of the option's thing. */
  lemma MakeHoldsAmount(option: ResultOption, pawns: seq<Pawn>, productionMultiplier: real)
    requires AllHaveSkills(pawns) && option.thing.stackLimit > 0
    requires Amount(option, pawns, productionMultiplier) >= 0
    ensures TotalCount(Make(option, pawns, productionMultiplier)) == Amount(option, pawns, productionMultiplier)
    ensures forall i :: 0 <= i < |Make(option, pawns, productionMultiplier)| ==>
              Make(option, pawns, productionMultiplier)[i].def == option.thing
  {
    MadeStacksConserve(option.thing, Amount(option, pawns, productionMultiplier));
  }

  function CapitalizeFirst(s: string): (r: string)
    ensures |r| == |s|
  {
    if s == [] then s
    else if 'a' <= s[0] <= 'z' then [(s[0] as int - 32) as char] + s[1..]
    else s
  }

  /** The one-line explanation of an option: "<amount>x <Label>". */
  function Explain(option: ResultOption, pawns: seq<Pawn>, productionMultiplier: real): string
    requires AllHaveSkills(pawns)
  {
    IntToString(Amount(option, pawns, productionMultiplier)) + "x " + CapitalizeFirst(option.thing.displayLabel)
  }

  /** The index of the first occurrence of a character. */
  function IndexOf(s: string, c: char): (r: Option<nat>)
    ensures r.Some? ==> r.value < |s| && s[r.value] == c
    ensures r.Some? ==> forall k :: 0 <= k < r.value ==> s[k] != c
    ensures r.None? ==> forall k :: 0 <= k < |s| ==> s[k] != c
  {
    if s == [] then None
    else if s[0] == c then Some(0)
    else
      var rest := IndexOf(s[1..], c);
      if rest.None? then None else Some(rest.value + 1)
  }

  /** Reads the amount back from an explanation line. */
  function ExplainedAmount(text: string): Option<int> {
    var k := IndexOf(text, 'x');
    if k.None? then None else ParseInt(text[..k.value])
  }

  /** The explanation line starts with the amount, which reads back exactly. */
  lemma ExplainShowsAmount(option: ResultOption, pawns: seq<Pawn>, productionMultiplier: real)
    requires AllHaveSkills(pawns)
    ensures ExplainedAmount(Explain(option, pawns, productionMultiplier))
         == Some(Amount(option, pawns, productionMultiplier))
  {
    var a := Amount(option, pawns, productionMultiplier);
    var tail := "x " + CapitalizeFirst(option.thing.displayLabel);
    assert Explain(option, pawns, productionMultiplier) == IntToString(a) + tail;
    ExplainedAmountOf(a, tail);
  }

  /** Any number followed by text starting with the marker reads back. */
  lemma ExplainedAmountOf(a: int, tail: string)
    requires |tail| > 0 && tail[0] == 'x'
    ensures ExplainedAmount(IntToString(a) + tail) == Some(a)
  {
    var digits := IntToString(a);
    var text := digits + tail;
    NatToStringDigits(if a < 0 then -a else a);
    assert forall k :: 0 <= k < |digits| ==> digits[k] != 'x';
    assert text[|digits|] == 'x';
    assert IndexOf(text, 'x') == Some(|digits|);
    assert text[..|digits|] == digits;
    ParseIntToString(a);
  }

  /** The configuration of one kind of outpost. A list the configuration
      leaves out is None: the source gives these lists no initial value.
      Each reader says how it treats a missing list; some read it as empty,
      others throw. */
  datatype OutpostExtension = OutpostExtension(
    allowedBiomes: Option<seq<BiomeDef>>,
    costToMake: Option<seq<Cost>>,
    disallowedBiomes: Option<seq<BiomeDef>>,
    displaySkills: Option<seq<SkillDef>>,
    event: Option<HistoryEventDef>,
    minPawns: int,
    providedFood: Option<ThingDef>,
    range: int,
    requiredSkills: Option<seq<AmountBySkill>>,
    requiresGrowing: bool,
    resultOptions: Option<seq<ResultOption>>,
    ticksPerProduction: int,
    ticksToPack: int,
    ticksToSetUp: int)

  /** The values a configuration has before any field is set. */
  const DefaultExtension: OutpostExtension :=
    OutpostExtension(None, None, None, None, None, 0, None, -1, None, false, None, 15 * 60000, 7 * 60000, -1)

  /** Every thing an outpost can produce stacks at least one per stack. */
  predicate WellFormed(ext: OutpostExtension) {
    forall i :: 0 <= i < |OrEmpty(ext.resultOptions)| ==> OrEmpty(ext.resultOptions)[i].thing.stackLimit > 0
  }

  function SkillsOf(terms: seq<AmountBySkill>): (r: seq<SkillDef>)
    ensures |r| == |terms|
    ensures forall i :: 0 <= i < |terms| ==> r[i] == terms[i].skill
  {
    if terms == [] then [] else [terms[0].skill] + SkillsOf(terms[1..])
  }

  function OptionSkills(options: seq<ResultOption>): seq<SkillDef> {
    if options == [] then []
    else SkillsOf(OrEmpty(options[0].amountsPerSkills)) + SkillsOf(OrEmpty(options[0].minAmountsPerSkills))
         + OptionSkills(options[1..])
  }

  /** Every skill the configuration mentions, with repeats: the required
      skills, then each option's per-skill terms and minimums. A missing
      required-skill or result-option list reads as empty. */
  function RelevantSkillList(ext: OutpostExtension): seq<SkillDef> {
    SkillsOf(OrEmpty(ext.requiredSkills)) + OptionSkills(OrEmpty(ext.resultOptions))
  }

  /** The skills the configuration mentions, without repeats, reading a
      missing per-skill list of a result option as empty. */
  function RelevantSkills(ext: OutpostExtension): (r: set<SkillDef>)
    ensures forall s :: s in r <==>
              (exists a :: a in OrEmpty(ext.requiredSkills) && a.skill == s) ||
              (exists o, a :: o in OrEmpty(ext.resultOptions) && a in OrEmpty(o.amountsPerSkills) + OrEmpty(o.minAmountsPerSkills) && a.skill == s)
  {
    var l := RelevantSkillList(ext);
    forall s ensures s in l <==>
              (exists a :: a in OrEmpty(ext.requiredSkills) && a.skill == s) ||
              (exists o, a :: o in OrEmpty(ext.resultOptions) && a in OrEmpty(o.amountsPerSkills) + OrEmpty(o.minAmountsPerSkills) && a.skill == s)
    {
      SkillsOfMembership(OrEmpty(ext.requiredSkills), s);
      OptionSkillsMembership(OrEmpty(ext.resultOptions), s);
    }
    set s | s in l
  }

  lemma SkillsOfMembership(terms: seq<AmountBySkill>, s: SkillDef)
    ensures s in SkillsOf(terms) <==> exists a :: a in terms && a.skill == s
  {
    if s in SkillsOf(terms) {
      var i :| 0 <= i < |terms| && SkillsOf(terms)[i] == s;
      assert terms[i] in terms;
    }
  }

  lemma {:induction false} OptionSkillsMembership(options: seq<ResultOption>, s: SkillDef)
    ensures s in OptionSkills(options) <==>
              exists o, a :: o in options && a in OrEmpty(o.amountsPerSkills) + OrEmpty(o.minAmountsPerSkills) && a.skill == s
  {
    if options != [] {
      var o0 := options[0];
      OptionSkillsMembership(options[1..], s);
      SkillsOfMembership(OrEmpty(o0.amountsPerSkills), s);
      SkillsOfMembership(OrEmpty(o0.minAmountsPerSkills), s);
      if exists o, a :: o in options && a in OrEmpty(o.amountsPerSkills) + OrEmpty(o.minAmountsPerSkills) && a.skill == s {
        var o, a :| o in options && a in OrEmpty(o.amountsPerSkills) + OrEmpty(o.minAmountsPerSkills) && a.skill == s;
        if o != o0 {
          assert o in options[1..];
        }
      }
      if exists o, a :: o in options[1..] && a in OrEmpty(o.amountsPerSkills) + OrEmpty(o.minAmountsPerSkills) && a.skill == s {
        var o, a :| o in options[1..] && a in OrEmpty(o.amountsPerSkills) + OrEmpty(o.minAmountsPerSkills) && a.skill == s;
        assert o in options;
      }
    }
  }

  /** Whether every result option carries both of its per-skill lists. */
  predicate OptionListsPresent(options: seq<ResultOption>) {
    forall i :: 0 <= i < |options| ==>
      options[i].amountsPerSkills.Some? && options[i].minAmountsPerSkills.Some?
  }

  /** The option skills as the source enumerates them: each option's two
      per-skill lists are walked without a null guard, so the first missing
      list throws. */
  function OptionSkillsAsWritten(options: seq<ResultOption>): (r: Outcome<seq<SkillDef>>)
    ensures r.Throws? <==> !OptionListsPresent(options)
    ensures r.Returns? ==> r.value == OptionSkills(options)
  {
    if options == [] then Returns([])
    else if options[0].amountsPerSkills.None? || options[0].minAmountsPerSkills.None? then
      Throws("NullReferenceException")
    else
      var rest := OptionSkillsAsWritten(options[1..]);
      assert OptionListsPresent(options) <==> OptionListsPresent(options[1..]) by {
        if OptionListsPresent(options[1..]) {
          forall i | 1 <= i < |options|
            ensures options[i].amountsPerSkills.Some? && options[i].minAmountsPerSkills.Some?
          {
            assert options[i] == options[1..][i - 1];
          }
        }
      }
      if rest.Throws? then rest
      else Returns(SkillsOf(options[0].amountsPerSkills.value) + SkillsOf(options[0].minAmountsPerSkills.value)
                   + rest.value)
  }

  /** The relevant skills as written: the collection throws when any result
      option leaves out either per-skill list, and otherwise agrees with
      RelevantSkills. */
  function RelevantSkillsAsWritten(ext: OutpostExtension): (r: Outcome<set<SkillDef>>)
    ensures r.Throws? <==> !OptionListsPresent(OrEmpty(ext.resultOptions))
    ensures r.Returns? ==> r.value == RelevantSkills(ext)
  {
    var fromOptions := OptionSkillsAsWritten(OrEmpty(ext.resultOptions));
    if fromOptions.Throws? then Throws(fromOptions.exception)
    else Returns(set s | s in SkillsOf(OrEmpty(ext.requiredSkills)) + fromOptions.value)
  }

  /** A result option that leaves out its per-skill amounts makes the
      collection as written throw, while RelevantSkills still lists the
      option's minimum skills. */
  lemma MissingSkillListThrows(ext: OutpostExtension)
    requires ext.resultOptions.Some? && |ext.resultOptions.value| > 0
    requires ext.resultOptions.value[0].amountsPerSkills.None?
    ensures RelevantSkillsAsWritten(ext).Throws?
    ensures forall a :: a in OrEmpty(ext.resultOptions.value[0].minAmountsPerSkills) ==> a.skill in RelevantSkills(ext)
  {
    var o := ext.resultOptions.value[0];
    forall a | a in OrEmpty(o.minAmountsPerSkills)
      ensures a.skill in RelevantSkills(ext)
    {
      assert o in OrEmpty(ext.resultOptions) && a in OrEmpty(o.amountsPerSkills) + OrEmpty(o.minAmountsPerSkills);
    }
  }

  /** A result option with each missing per-skill list replaced by an empty
      one. */
  function WithEmptyLists(o: ResultOption): (r: ResultOption)
    ensures r.amountsPerSkills == Some(OrEmpty(o.amountsPerSkills))
    ensures r.minAmountsPerSkills == Some(OrEmpty(o.minAmountsPerSkills))
    ensures r.thing == o.thing && r.baseAmount == o.baseAmount && r.amountPerPawn == o.amountPerPawn
  {
    o.(amountsPerSkills := Some(OrEmpty(o.amountsPerSkills)),
       minAmountsPerSkills := Some(OrEmpty(o.minAmountsPerSkills)))
  }

  function FillLists(options: seq<ResultOption>): (r: seq<ResultOption>)
    ensures |r| == |options|
    ensures forall i :: 0 <= i < |options| ==> r[i] == WithEmptyLists(options[i])
  {
    if options == [] then [] else [WithEmptyLists(options[0])] + FillLists(options[1..])
  }

  lemma {:induction false} FillListsSkills(options: seq<ResultOption>)
    ensures OptionSkills(FillLists(options)) == OptionSkills(options)
  {
    if options != [] {
      FillListsSkills(options[1..]);
      assert FillLists(options)[1..] == FillLists(options[1..]);
    }
  }

  /** The intended reading: RelevantSkills is what the collection as written
      returns once every missing per-skill list is given as an empty one. */
  lemma MissingListReadsAsEmpty(ext: OutpostExtension)
    ensures RelevantSkillsAsWritten(ext.(resultOptions := Some(FillLists(OrEmpty(ext.resultOptions)))))
         == Returns(RelevantSkills(ext))
  {
    var filled := ext.(resultOptions := Some(FillLists(OrEmpty(ext.resultOptions))));
    FillListsSkills(OrEmpty(ext.resultOptions));
    assert RelevantSkillList(filled) == RelevantSkillList(ext);
  }
}
