/** The shape of the research pipeline `create_research_system` builds: nine
    top-level stages run in order, three of them groups of agents whose
    discipline (concurrent or sequential) the mode string selects. Each agent
    reads earlier results through `{key}` placeholders in its instruction and
    stores its own result under an output key. */
module ResearchApp {
  import opened TextUtil

  datatype Discipline = Sequential | Concurrent

  /** An LLM agent, reduced to what wires it into the pipeline: its name, the
      state keys its instruction's placeholders name (in order of appearance)
      and the key its output is stored under. */
  datatype Agent = Agent(name: string, refs: seq<Key>, outputKey: Key)

  datatype Stage =
    | Single(agent: Agent)
    | Group(name: string, discipline: Discipline, members: seq<Agent>)

  datatype Workflow = Workflow(name: string, discipline: Discipline, stages: seq<Stage>)

  // ---------------------------------------------------------------------
  // Output keys
  // ---------------------------------------------------------------------

  /** The session-state keys the agents store their results under. */
  datatype Key =
    | Queries | ArxivResults | WebResults
    | CitationAudit | FraudAnalysis | ReproducibilityReport
    | KnowledgeGraph | Gaps | InnovationBridge | NegativeResults
    | Hypotheses | Draft | FinalReport

  /** The key as it is spelled in the state and in `{key}` placeholders. */
  function KeyName(k: Key): string {
    match k
    case Queries => "queries"
    case ArxivResults => "arxiv_results"
    case WebResults => "web_results"
    case CitationAudit => "citation_audit"
    case FraudAnalysis => "fraud_analysis"
    case ReproducibilityReport => "reproducibility_report"
    case KnowledgeGraph => "knowledge_graph"
    case Gaps => "gaps"
    case InnovationBridge => "innovation_bridge"
    case NegativeResults => "negative_results"
    case Hypotheses => "hypotheses"
    case Draft => "draft"
    case FinalReport => "final_report"
  }

  // ---------------------------------------------------------------------
  // The agents
  // ---------------------------------------------------------------------

  const QueryAgent := Agent("query_formulation", [], Queries)
  const ArxivAgent := Agent("arxiv_mining", [Queries], ArxivResults)
  const WebAgent := Agent("web_mining", [Queries], WebResults)
  const CitationAuditor := Agent("citation_auditor", [], CitationAudit)
  const FraudDetector := Agent("fraud_detector", [], FraudAnalysis)
  const ReproducibilityAuditor := Agent("reproducibility_auditor", [], ReproducibilityReport)
  const KnowledgeGraphAgent := Agent("knowledge_graph", [ArxivResults, WebResults], KnowledgeGraph)
  const GapAgent := Agent("gap_analysis", [KnowledgeGraph, ArxivResults], Gaps)
  const DomainBridge := Agent("domain_bridge", [], InnovationBridge)
  const NegativeResultsAnalyst := Agent("negative_results_analyst", [], NegativeResults)
  const HypothesisAgent := Agent("hypothesis_generation", [Gaps], Hypotheses)
  const WriterAgent := Agent("writing", [ArxivResults, Gaps, Hypotheses], Draft)
  const EvaluationAgent := Agent("evaluation", [Draft, Hypotheses], FinalReport)

  // ---------------------------------------------------------------------
  // Construction
  // ---------------------------------------------------------------------

  /** The class of the grouped stages: concurrent only for the exact mode
      string "parallel". */
  function StageDiscipline(mode: string): (d: Discipline)
    ensures d == Concurrent <==> mode == "parallel"
  {
    if mode == "parallel" then Concurrent else Sequential
  }

  function Stages(d: Discipline): seq<Stage> {
    [ Single(QueryAgent),
      Group("literature_mining", d, [ArxivAgent, WebAgent]),
      Group("quality_control_stage", d, [CitationAuditor, FraudDetector, ReproducibilityAuditor]),
      Single(KnowledgeGraphAgent),
      Single(GapAgent),
      Group("innovation_stage", d, [DomainBridge, NegativeResultsAnalyst]),
      Single(HypothesisAgent),
      Single(WriterAgent),
      Single(EvaluationAgent) ]
  }

  /** `create_research_system`: the top-level workflow is always sequential
      over nine stages; the mode only picks the groups' discipline. */
  function CreateResearchSystem(mode: string): (w: Workflow)
    ensures w.name == "research_workflow" && w.discipline == Sequential
    ensures |w.stages| == 9
    ensures forall i :: 0 <= i < 9 && w.stages[i].Group? ==> w.stages[i].discipline == StageDiscipline(mode)
  {
    Workflow("research_workflow", Sequential, Stages(StageDiscipline(mode)))
  }

  // ---------------------------------------------------------------------
  // Well-formedness
  // ---------------------------------------------------------------------

  function Members(s: Stage): seq<Agent> {
    match s
    case Single(a) => [a]
    case Group(_, _, ms) => ms
  }

  /** The output keys of a list of agents. */
  function KeysOf(ms: seq<Agent>): set<Key> {
    if ms == [] then {} else {ms[0].outputKey} + KeysOf(ms[1..])
  }

  function StageKeys(s: Stage): set<Key> {
    KeysOf(Members(s))
  }

  /** The keys stored by the stages before position `i`. */
  function KeysBefore(stages: seq<Stage>, i: nat): set<Key>
    requires i <= |stages|
  {
    if i == 0 then {} else KeysBefore(stages, i - 1) + StageKeys(stages[i - 1])
  }

  /** Every placeholder names the output key of a strictly earlier stage. */
  predicate RefsResolve(stages: seq<Stage>) {
    forall i :: 0 <= i < |stages| ==> StageResolves(stages, i)
  }

  predicate StageResolves(stages: seq<Stage>, i: nat)
    requires i < |stages|
  {
    forall a :: a in Members(stages[i]) ==> forall r :: r in a.refs ==> r in KeysBefore(stages, i)
  }

  /** No two agents of the workflow store under the same key: inside a stage
      the members' keys differ, and different stages share no key. */
  predicate KeysDistinct(stages: seq<Stage>) {
    MembersDistinct(stages) && StagesDisjoint(stages)
  }

  predicate MembersDistinct(stages: seq<Stage>) {
    forall i :: 0 <= i < |stages| ==>
      forall p, q :: 0 <= p < q < |Members(stages[i])| ==>
        Members(stages[i])[p].outputKey != Members(stages[i])[q].outputKey
  }

  predicate StagesDisjoint(stages: seq<Stage>) {
    forall i, j :: 0 <= i < j < |stages| ==> StageKeys(stages[i]) !! StageKeys(stages[j])
  }

  predicate WellFormed(w: Workflow) {
    RefsResolve(w.stages) && KeysDistinct(w.stages)
  }

  // ---------------------------------------------------------------------
  // Placeholder resolution
  // ---------------------------------------------------------------------

  /** Filling an instruction's placeholders from the session state: the
      values in placeholder order, or None when some key is not yet stored. */
  function Resolve(refs: seq<Key>, state: map<string, string>): (r: Option<seq<string>>)
    ensures r.Some? <==> forall k :: k in refs ==> KeyName(k) in state
    ensures r.Some? ==> |r.value| == |refs|
                        && forall p :: 0 <= p < |refs| ==> r.value[p] == state[KeyName(refs[p])]
  {
    if refs == [] then Some([])
    else if KeyName(refs[0]) !in state then None
    else
      match Resolve(refs[1..], state)
      case None =>
        assert exists k :: k in refs[1..] && KeyName(k) !in state;
        None
      case Some(vs) =>
        assert forall k :: k in refs ==> k == refs[0] || k in refs[1..];
        Some([state[KeyName(refs[0])]] + vs)
  }

  // ---------------------------------------------------------------------
  // Properties
  // ---------------------------------------------------------------------

  /** Different keys are spelled differently, so they never share a state slot. */
  lemma KeyNamesDistinct(k1: Key, k2: Key)
    requires k1 != k2
    ensures KeyName(k1) != KeyName(k2)
  {
  }

  /** A key belongs to a list's key set exactly when some agent of the list
      stores under it. */
  lemma {:induction false} KeysOfMembers(ms: seq<Agent>, k: Key)
    ensures k in KeysOf(ms) <==> exists a :: a in ms && a.outputKey == k
  {
    if ms != [] {
      KeysOfMembers(ms[1..], k);
      assert forall a :: a in ms <==> a == ms[0] || a in ms[1..];
    }
  }

  lemma KeysOfCons(a: Agent, ms: seq<Agent>)
    ensures KeysOf([a] + ms) == {a.outputKey} + KeysOf(ms)
  {
    assert ([a] + ms)[1..] == ms;
  }

  lemma {:induction false} KeysBeforeMembers(stages: seq<Stage>, i: nat, k: Key)
    requires i <= |stages| && k in KeysBefore(stages, i)
    ensures exists j :: 0 <= j < i && k in StageKeys(stages[j])
  {
    if k !in StageKeys(stages[i - 1]) {
      KeysBeforeMembers(stages, i - 1, k);
    }
  }

  /** Grouped siblings do not depend on each other (nor does any agent read
      its own key), so the order in which a group runs its members cannot
      change what their placeholders see. */
  lemma SiblingsIndependent(w: Workflow, i: nat, a: Agent, b: Agent)
    requires WellFormed(w) && i < |w.stages|
    requires a in Members(w.stages[i]) && b in Members(w.stages[i])
    ensures b.outputKey !in a.refs
  {
    if b.outputKey in a.refs {
      assert StageResolves(w.stages, i);
      KeysOfMembers(Members(w.stages[i]), b.outputKey);
      KeysBeforeMembers(w.stages, i, b.outputKey);
      assert false;
    }
  }

  /** Placeholders always resolve: once the keys of all earlier stages are
      stored, every agent's instruction can be filled. */
  lemma PlaceholdersResolve(w: Workflow, i: nat, a: Agent, state: map<string, string>)
    requires WellFormed(w) && i < |w.stages| && a in Members(w.stages[i])
    requires forall k :: k in KeysBefore(w.stages, i) ==> KeyName(k) in state
    ensures Resolve(a.refs, state).Some?
  {
    assert StageResolves(w.stages, i);
  }

  /** Filling an instruction does not look at keys it does not name. */
  lemma {:induction false} ResolveIgnoresOtherKeys(refs: seq<Key>, state: map<string, string>, k: Key, v: string)
    requires k !in refs
    ensures Resolve(refs, state[KeyName(k) := v]) == Resolve(refs, state)
  {
    if refs != [] {
      KeyNamesDistinct(refs[0], k);
      ResolveIgnoresOtherKeys(refs[1..], state, k, v);
    }
  }

  /** A sibling's write leaves an agent's filled instruction unchanged. */
  lemma SiblingWriteInvisible(w: Workflow, i: nat, a: Agent, b: Agent, state: map<string, string>, v: string)
    requires WellFormed(w) && i < |w.stages|
    requires a in Members(w.stages[i]) && b in Members(w.stages[i])
    ensures Resolve(a.refs, state[KeyName(b.outputKey) := v]) == Resolve(a.refs, state)
  {
    SiblingsIndependent(w, i, a, b);
    ResolveIgnoresOtherKeys(a.refs, state, b.outputKey, v);
  }

  /** The workflow built for any mode is well formed. */
  lemma CreatedWellFormed(mode: string)
    ensures WellFormed(CreateResearchSystem(mode))
  {
    StagesResolve(StageDiscipline(mode));
    StagesKeysDistinct(StageDiscipline(mode));
  }

  lemma StageMembers(d: Discipline)
    ensures var s := Stages(d);
      && Members(s[0]) == [QueryAgent]
      && Members(s[1]) == [ArxivAgent, WebAgent]
      && Members(s[2]) == [CitationAuditor, FraudDetector, ReproducibilityAuditor]
      && Members(s[3]) == [KnowledgeGraphAgent]
      && Members(s[4]) == [GapAgent]
      && Members(s[5]) == [DomainBridge, NegativeResultsAnalyst]
      && Members(s[6]) == [HypothesisAgent]
      && Members(s[7]) == [WriterAgent]
      && Members(s[8]) == [EvaluationAgent]
  {
  }

  lemma KeysOfOne(a: Agent)
    ensures KeysOf([a]) == {a.outputKey}
  {
    KeysOfCons(a, []);
    assert [a] == [a] + [];
  }

  lemma KeysOfTwo(a: Agent, b: Agent)
    ensures KeysOf([a, b]) == {a.outputKey, b.outputKey}
  {
    KeysOfOne(b);
    KeysOfCons(a, [b]);
    assert [a, b] == [a] + [b];
  }

  lemma KeysOfThree(a: Agent, b: Agent, c: Agent)
    ensures KeysOf([a, b, c]) == {a.outputKey, b.outputKey, c.outputKey}
  {
    KeysOfTwo(b, c);
    KeysOfCons(a, [b, c]);
    assert [a, b, c] == [a] + [b, c];
  }

  lemma StageKeySets(d: Discipline)
    ensures var s := Stages(d);
      && StageKeys(s[0]) == {Queries}
      && StageKeys(s[1]) == {ArxivResults, WebResults}
      && StageKeys(s[2]) == {CitationAudit, FraudAnalysis, ReproducibilityReport}
      && StageKeys(s[3]) == {KnowledgeGraph}
      && StageKeys(s[4]) == {Gaps}
      && StageKeys(s[5]) == {InnovationBridge, NegativeResults}
      && StageKeys(s[6]) == {Hypotheses}
      && StageKeys(s[7]) == {Draft}
      && StageKeys(s[8]) == {FinalReport}
  {
    StageMembers(d);
    KeysOfOne(QueryAgent);
    KeysOfTwo(ArxivAgent, WebAgent);
    KeysOfThree(CitationAuditor, FraudDetector, ReproducibilityAuditor);
    KeysOfOne(KnowledgeGraphAgent);
    KeysOfOne(GapAgent);
    KeysOfTwo(DomainBridge, NegativeResultsAnalyst);
    KeysOfOne(HypothesisAgent);
    KeysOfOne(WriterAgent);
    KeysOfOne(EvaluationAgent);
  }

  lemma KeysBeforeSets(d: Discipline)
    ensures var s := Stages(d);
      && KeysBefore(s, 1) == {Queries}
      && KeysBefore(s, 2) == {Queries, ArxivResults, WebResults}
      && KeysBefore(s, 4) == {Queries, ArxivResults, WebResults, CitationAudit, FraudAnalysis,
                              ReproducibilityReport, KnowledgeGraph}
      && KeysBefore(s, 6) == KeysBefore(s, 4) + {Gaps, InnovationBridge, NegativeResults}
      && KeysBefore(s, 8) == KeysBefore(s, 6) + {Hypotheses, Draft}
  {
    StageKeySets(d);
  }

  lemma StagesResolve(d: Discipline)
    ensures RefsResolve(Stages(d))
  {
    var s := Stages(d);
    StageMembers(d);
    KeysBeforeSets(d);
    forall i | 0 <= i < |s| ensures StageResolves(s, i) {
      if i < 3 {
        assert KeysBefore(s, 1) <= KeysBefore(s, 2);
      } else if i < 6 {
        assert KeysBefore(s, 4) <= KeysBefore(s, 5);
      } else {
        assert KeysBefore(s, 6) <= KeysBefore(s, 7) <= KeysBefore(s, 8);
      }
    }
  }

  /** The stage of the built workflow that stores each key. */
  function OwnerStage(k: Key): nat {
    match k
    case Queries => 0
    case ArxivResults | WebResults => 1
    case CitationAudit | FraudAnalysis | ReproducibilityReport => 2
    case KnowledgeGraph => 3
    case Gaps => 4
    case InnovationBridge | NegativeResults => 5
    case Hypotheses => 6
    case Draft => 7
    case FinalReport => 8
  }

  lemma StageKeysOwned(d: Discipline, i: nat)
    requires i < 9
    ensures forall k :: k in StageKeys(Stages(d)[i]) ==> OwnerStage(k) == i
  {
    StageKeySets(d);
  }

  lemma StagesKeysDistinct(d: Discipline)
    ensures KeysDistinct(Stages(d))
  {
    var s := Stages(d);
    StageMembers(d);
    assert MembersDistinct(s);
    forall i, j | 0 <= i < j < |s| ensures StageKeys(s[i]) !! StageKeys(s[j]) {
      StageKeysOwned(d, i);
      StageKeysOwned(d, j);
    }
  }

  /** Any mode other than the exact string "parallel" (the default
      "sequential" included) builds the same, fully sequential workflow. */
  lemma NonParallelModesAgree(m1: string, m2: string)
    requires m1 != "parallel" && m2 != "parallel"
    ensures CreateResearchSystem(m1) == CreateResearchSystem(m2)
    ensures CreateResearchSystem(m1) == CreateResearchSystem("sequential")
  {
  }

  /** The mode changes only the grouped stages' discipline: single-agent
      stages are identical, and groups keep their name and members. */
  lemma ModeOnlyAffectsGroups(m1: string, m2: string, i: nat)
    requires i < 9
    ensures var s1, s2 := CreateResearchSystem(m1).stages[i], CreateResearchSystem(m2).stages[i];
      s1.Group? == s2.Group?
      && (s1.Single? ==> s1 == s2)
      && (s1.Group? ==> s1.name == s2.name && s1.members == s2.members)
  {
  }

  /** The stage order: query, mining, quality control, knowledge graph, gaps,
      innovation, hypotheses, writing, evaluation. */
  lemma StageOrder(mode: string)
    ensures var s := CreateResearchSystem(mode).stages;
      && s[0] == Single(QueryAgent)
      && s[1].Group? && s[1].name == "literature_mining"
      && s[2].Group? && s[2].name == "quality_control_stage"
      && s[3] == Single(KnowledgeGraphAgent)
      && s[4] == Single(GapAgent)
      && s[5].Group? && s[5].name == "innovation_stage"
      && s[6] == Single(HypothesisAgent)
      && s[7] == Single(WriterAgent)
      && s[8] == Single(EvaluationAgent)
  {
  }
}
