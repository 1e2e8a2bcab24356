/**
 * Deciding whether freshly trained models replace the deployed ones
 * (src/models/evaluate_and_register_model.py).
 *
 * The MLflow model registry is a map from a registered model name to the
 * stages of its versions: versions are numbered 1, 2, 3, ... in the order
 * they were registered, and version v's stage sits at index v - 1.  Two
 * models take part: "regression_model" (predicts pm10) and
 * "classification_model" (predicts the air-quality category).
 *
 * Evaluating a model version on the held-out test set is opaque here: an
 * evaluator maps a version to its metrics, or to None when the model cannot
 * be loaded.  The metrics are reals that are only compared.
 */
module ModelPromotion {
  import opened Wrappers

  /** MLflow version numbers start at 1. */
  type Version = v: int | v >= 1 witness 1

  /** MLflow's stages "None", "Production" and "Archived". */
  datatype Stage = NoStage | Production | Archived

  /** Registered model name -> stage of version v at index v - 1. */
  type Registry = map<string, seq<Stage>>

  const RegressionModel: string := "regression_model"
  const ClassificationModel: string := "classification_model"

  datatype RegressionMetrics = RegressionMetrics(mae: real, mse: real, evs: real)

  datatype ClassificationMetrics = ClassificationMetrics(accuracy: real, f1: real)

  // ---------------------------------------------------------------------
  // Registry lookups: get_latest_versions(name, stages=[stage])
  // ---------------------------------------------------------------------

  /** The highest version whose stage is `stage`, if any. */
  function LatestInStage(stages: seq<Stage>, stage: Stage): (r: Option<Version>)
    ensures r.Some? ==> r.value <= |stages| && stages[r.value - 1] == stage
    ensures r.Some? ==> forall i :: r.value <= i < |stages| ==> stages[i] != stage
    ensures r.None? <==> forall i :: 0 <= i < |stages| ==> stages[i] != stage
  {
    if |stages| == 0 then None
    else if stages[|stages| - 1] == stage then Some(|stages|)
    else
      var r := LatestInStage(stages[..|stages| - 1], stage);
      assert forall i :: 0 <= i < |stages| - 1 ==> stages[..|stages| - 1][i] == stages[i];
      r
  }

  /** The latest version of `name` in `stage`; None when there is none or the
      model is not registered (the lookup's exception is caught). */
  function GetLatestVersion(reg: Registry, name: string, stage: Stage): (r: Option<Version>)
    ensures r.Some? ==> name in reg && r.value <= |reg[name]| && reg[name][r.value - 1] == stage
    ensures r.Some? ==> forall i :: r.value <= i < |reg[name]| ==> reg[name][i] != stage
    ensures r.None? <==> name !in reg || forall i :: 0 <= i < |reg[name]| ==> reg[name][i] != stage
  {
    if name in reg then LatestInStage(reg[name], stage) else None
  }

  /** The stage of version v of `name`; None when there is no such version. */
  function StageAt(reg: Registry, name: string, v: Version): Option<Stage>
  {
    if name in reg && v <= |reg[name]| then Some(reg[name][v - 1]) else None
  }

  /** Version v of `name` is in Production. */
  predicate InProduction(reg: Registry, name: string, v: Version)
  {
    name in reg && v <= |reg[name]| && reg[name][v - 1] == Production
  }

  /** The registry invariant: at most one Production version of a model. */
  predicate AtMostOneProduction(stages: seq<Stage>)
  {
    forall i, j ::
      (0 <= i < |stages| && 0 <= j < |stages| && stages[i] == Production && stages[j] == Production) ==> i == j
  }

  // ---------------------------------------------------------------------
  // Stage transitions
  // ---------------------------------------------------------------------

  datatype Transition = Transition(name: string, version: Version, stage: Stage)

  /** transition_model_version_stage(name, version, stage): only the named
      version changes.  (Other versions are not archived: MLflow's
      archive_existing_versions is left at False.) */
  function SetStage(reg: Registry, name: string, version: Version, stage: Stage): (after: Registry)
    ensures StageAt(after, name, version) == if StageAt(reg, name, version).Some? then Some(stage) else None
  {
    if name in reg && version <= |reg[name]| then reg[name := reg[name][version - 1 := stage]]
    else reg
  }

  /** The registry after a sequence of transitions, applied in order. */
  function ApplyAll(reg: Registry, ts: seq<Transition>): Registry
  {
    if ts == [] then reg
    else ApplyAll(SetStage(reg, ts[0].name, ts[0].version, ts[0].stage), ts[1..])
  }

  // ---------------------------------------------------------------------
  // The comparison rules
  // ---------------------------------------------------------------------

  /** The regression candidate wins only with a strictly lower MSE AND a
      strictly higher explained variance.  The rule is asymmetric, and a tie
      on either metric keeps the Production version. */
  predicate RegressionBetter(candidate: RegressionMetrics, production: RegressionMetrics): (better: bool)
    ensures better ==> !(production.mse < candidate.mse && production.evs > candidate.evs)
    ensures candidate.mse == production.mse || candidate.evs == production.evs ==> !better
  {
    candidate.mse < production.mse && candidate.evs > production.evs
  }

  /** The classification candidate wins only with a strictly higher accuracy
      AND a strictly higher weighted F1.  The rule is asymmetric, and a tie
      on either metric keeps the Production version. */
  predicate ClassificationBetter(candidate: ClassificationMetrics, production: ClassificationMetrics): (better: bool)
    ensures better ==> !(production.accuracy > candidate.accuracy && production.f1 > candidate.f1)
    ensures candidate.accuracy == production.accuracy || candidate.f1 == production.f1 ==> !better
  {
    candidate.accuracy > production.accuracy && candidate.f1 > production.f1
  }

  /** The transitions for one model after comparing: promote the candidate
      and then archive the old Production version, or archive the candidate. */
  function RoleTransitions(name: string, candidate: Version, production: Version, promote: bool): seq<Transition>
  {
    if promote then [Transition(name, candidate, Production), Transition(name, production, Archived)]
    else [Transition(name, candidate, Archived)]
  }

  /** Which of main's exits was taken. */
  datatype Outcome =
    | NoNewVersion           // a model has no version in stage "None"
    | CandidateNotLoaded     // a candidate could not be loaded
    | FirstDeployment        // a model has no Production version
    | ProductionNotLoaded    // a Production model could not be loaded
    | Compared(regressionPromoted: bool, classificationPromoted: bool)

  datatype Decision = Decision(outcome: Outcome, transitions: seq<Transition>)

  /** The exit main takes and the stage transitions it requests, in order.
      Only the first deployment and the comparison request transitions. */
  function Decide(reg: Registry,
                  evalRegression: Version -> Option<RegressionMetrics>,
                  evalClassification: Version -> Option<ClassificationMetrics>): (d: Decision)
    ensures d.transitions == [] <==> !d.outcome.FirstDeployment? && !d.outcome.Compared?
  {
    var candReg := GetLatestVersion(reg, RegressionModel, NoStage);
    var candCls := GetLatestVersion(reg, ClassificationModel, NoStage);
    if candReg.None? || candCls.None? then Decision(NoNewVersion, [])
    else
      var newReg := evalRegression(candReg.value);
      var newCls := evalClassification(candCls.value);
      if newReg.None? || newCls.None? then Decision(CandidateNotLoaded, [])
      else
        var prodReg := GetLatestVersion(reg, RegressionModel, Production);
        var prodCls := GetLatestVersion(reg, ClassificationModel, Production);
        if prodReg.None? || prodCls.None? then
          Decision(FirstDeployment, [Transition(RegressionModel, candReg.value, Production),
                                     Transition(ClassificationModel, candCls.value, Production)])
        else
          var oldReg := evalRegression(prodReg.value);
          var oldCls := evalClassification(prodCls.value);
          if oldReg.None? || oldCls.None? then Decision(ProductionNotLoaded, [])
          else
            var promoteReg := RegressionBetter(newReg.value, oldReg.value);
            var promoteCls := ClassificationBetter(newCls.value, oldCls.value);
            Decision(Compared(promoteReg, promoteCls),
                     RoleTransitions(RegressionModel, candReg.value, prodReg.value, promoteReg)
                     + RoleTransitions(ClassificationModel, candCls.value, prodCls.value, promoteCls))
  }

  /** The registry after main; every exit but the first deployment and the
      comparison leaves it as it was. */
  function Run(reg: Registry,
               evalRegression: Version -> Option<RegressionMetrics>,
               evalClassification: Version -> Option<ClassificationMetrics>): (after: Registry)
    ensures var o := Decide(reg, evalRegression, evalClassification).outcome;
            !o.FirstDeployment? && !o.Compared? ==> after == reg
  {
    ApplyAll(reg, Decide(reg, evalRegression, evalClassification).transitions)
  }

  // ---------------------------------------------------------------------
  // The registry client and main
  // ---------------------------------------------------------------------

  class ModelRegistry {
    var models: Registry

    constructor (models: Registry)
      ensures this.models == models
    {
      this.models := models;
    }

    /** get_latest_model(name): the newest version in stage "None". */
    function GetLatestModel(name: string): Option<Version>
      reads this
    {
      GetLatestVersion(models, name, NoStage)
    }

    /** get_production_model(name): the newest version in Production. */
    function GetProductionModel(name: string): Option<Version>
      reads this
    {
      GetLatestVersion(models, name, Production)
    }

    /** transition_model_version_stage; the version must exist. */
    method TransitionModelVersionStage(name: string, version: Version, stage: Stage)
      requires name in models && version <= |models[name]|
      modifies this
      ensures models == old(models)[name := old(models)[name][version - 1 := stage]]
    {
      models := models[name := models[name][version - 1 := stage]];
    }
  }

  /** One model's share of the comparison: promote the candidate and archive
      the old Production version, or archive the candidate. */
  method PromoteOrArchive(registry: ModelRegistry, name: string, candidate: Version,
                          production: Version, promote: bool)
    requires name in registry.models
    requires candidate <= |registry.models[name]| && production <= |registry.models[name]|
    modifies registry
    ensures registry.models == ApplyAll(old(registry.models), RoleTransitions(name, candidate, production, promote))
  {
    ghost var reg := registry.models;
    if promote {
      registry.TransitionModelVersionStage(name, candidate, Production);
      registry.TransitionModelVersionStage(name, production, Archived);
    } else {
      registry.TransitionModelVersionStage(name, candidate, Archived);
    }
    RoleTransitionsApplied(reg, name, candidate, production, promote);
  }

  /** main(): evaluate the newest candidates, compare them with the
      Production versions and move stages accordingly. */
  method EvaluateAndRegister(registry: ModelRegistry,
                             evalRegression: Version -> Option<RegressionMetrics>,
                             evalClassification: Version -> Option<ClassificationMetrics>)
    returns (outcome: Outcome)
    modifies registry
    ensures outcome == Decide(old(registry.models), evalRegression, evalClassification).outcome
    ensures registry.models == Run(old(registry.models), evalRegression, evalClassification)
  {
    ghost var reg := registry.models;
    var latestReg := registry.GetLatestModel(RegressionModel);
    var latestCls := registry.GetLatestModel(ClassificationModel);
    if latestReg.None? || latestCls.None? {
      assert Decide(reg, evalRegression, evalClassification) == Decision(NoNewVersion, []);
      return NoNewVersion;
    }
    var newReg := evalRegression(latestReg.value);
    var newCls := evalClassification(latestCls.value);
    if newReg.None? || newCls.None? {
      assert Decide(reg, evalRegression, evalClassification) == Decision(CandidateNotLoaded, []);
      return CandidateNotLoaded;
    }
    var prodReg := registry.GetProductionModel(RegressionModel);
    var prodCls := registry.GetProductionModel(ClassificationModel);
    if prodReg.None? || prodCls.None? {
      var first := [Transition(RegressionModel, latestReg.value, Production),
                    Transition(ClassificationModel, latestCls.value, Production)];
      assert Decide(reg, evalRegression, evalClassification) == Decision(FirstDeployment, first);
      registry.TransitionModelVersionStage(RegressionModel, latestReg.value, Production);
      registry.TransitionModelVersionStage(ClassificationModel, latestCls.value, Production);
      ApplyTwo(reg, first[0], first[1]);
      return FirstDeployment;
    }
    var oldReg := evalRegression(prodReg.value);
    var oldCls := evalClassification(prodCls.value);
    if oldReg.None? || oldCls.None? {
      assert Decide(reg, evalRegression, evalClassification) == Decision(ProductionNotLoaded, []);
      return ProductionNotLoaded;
    }
    var promoteReg := RegressionBetter(newReg.value, oldReg.value);
    var promoteCls := ClassificationBetter(newCls.value, oldCls.value);
    var regTs := RoleTransitions(RegressionModel, latestReg.value, prodReg.value, promoteReg);
    var clsTs := RoleTransitions(ClassificationModel, latestCls.value, prodCls.value, promoteCls);
    assert Decide(reg, evalRegression, evalClassification)
           == Decision(Compared(promoteReg, promoteCls), regTs + clsTs);
    PromoteOrArchive(registry, RegressionModel, latestReg.value, prodReg.value, promoteReg);
    RoleKeepsShape(reg, RegressionModel, latestReg.value, prodReg.value, promoteReg, ClassificationModel);
    PromoteOrArchive(registry, ClassificationModel, latestCls.value, prodCls.value, promoteCls);
    ApplyAllAppend(reg, regTs, clsTs);
    return Compared(promoteReg, promoteCls);
  }

  // ---------------------------------------------------------------------
  // Applying transitions
  // ---------------------------------------------------------------------

  lemma {:induction false} ApplyAllAppend(reg: Registry, a: seq<Transition>, b: seq<Transition>)
    ensures ApplyAll(reg, a + b) == ApplyAll(ApplyAll(reg, a), b)
  {
    if a == [] {
      assert a + b == b;
    } else {
      assert (a + b)[1..] == a[1..] + b;
      ApplyAllAppend(SetStage(reg, a[0].name, a[0].version, a[0].stage), a[1..], b);
    }
  }

  lemma ApplyTwo(reg: Registry, t: Transition, u: Transition)
    ensures ApplyAll(reg, [t, u])
            == SetStage(SetStage(reg, t.name, t.version, t.stage), u.name, u.version, u.stage)
  {
    var once := SetStage(reg, t.name, t.version, t.stage);
    assert [t, u][1..] == [u];
    assert ApplyAll(reg, [t, u]) == ApplyAll(once, [u]);
    assert [u][1..] == [];
    assert ApplyAll(once, [u]) == ApplyAll(SetStage(once, u.name, u.version, u.stage), []);
  }

  lemma RoleTransitionsApplied(reg: Registry, name: string, candidate: Version, production: Version, promote: bool)
    ensures ApplyAll(reg, RoleTransitions(name, candidate, production, promote))
            == if promote then SetStage(SetStage(reg, name, candidate, Production), name, production, Archived)
               else SetStage(reg, name, candidate, Archived)
  {
    if promote {
      ApplyTwo(reg, Transition(name, candidate, Production), Transition(name, production, Archived));
    } else {
      var t := Transition(name, candidate, Archived);
      assert [t][1..] == [];
      assert ApplyAll(reg, [t]) == ApplyAll(SetStage(reg, name, candidate, Archived), []);
    }
  }

  /** One model's transitions leave every model registered, with as many
      versions as before, and leave other models alone. */
  lemma RoleKeepsShape(reg: Registry, name: string, candidate: Version, production: Version,
                       promote: bool, other: string)
    ensures var after := ApplyAll(reg, RoleTransitions(name, candidate, production, promote));
            (other in after <==> other in reg) &&
            (other in reg ==> |after[other]| == |reg[other]|) &&
            (other != name && other in reg ==> after[other] == reg[other])
  {
    RoleTransitionsApplied(reg, name, candidate, production, promote);
  }

  // ---------------------------------------------------------------------
  // Properties of main
  // ---------------------------------------------------------------------

  /** Whether main promoted the candidate of `name`. */
  function RolePromoted(o: Outcome, name: string): bool
    requires o.Compared?
  {
    if name == RegressionModel then o.regressionPromoted else o.classificationPromoted
  }

  lemma NamesDiffer()
    ensures RegressionModel != ClassificationModel
  {
    assert RegressionModel[0] != ClassificationModel[0];
  }

  /** A transition changes the named version, if it exists, and nothing else. */
  lemma SetStageEffect(reg: Registry, name: string, v: Version, stage: Stage)
    ensures forall m :: m in SetStage(reg, name, v, stage) <==> m in reg
    ensures forall m, w :: StageAt(SetStage(reg, name, v, stage), m, w)
              == if m == name && w == v && StageAt(reg, m, w).Some? then Some(stage) else StageAt(reg, m, w)
  {
  }

  /** The effect of one model's comparison transitions. */
  lemma RoleEffect(reg: Registry, name: string, candidate: Version, production: Version, promote: bool)
    requires candidate != production
    requires StageAt(reg, name, candidate).Some? && StageAt(reg, name, production).Some?
    ensures var after := ApplyAll(reg, RoleTransitions(name, candidate, production, promote));
            name in after && |after[name]| == |reg[name]| &&
            StageAt(after, name, candidate) == Some(if promote then Production else Archived) &&
            StageAt(after, name, production) == (if promote then Some(Archived) else StageAt(reg, name, production)) &&
            forall w :: w != candidate && w != production ==> StageAt(after, name, w) == StageAt(reg, name, w)
  {
    RoleTransitionsApplied(reg, name, candidate, production, promote);
    SetStageEffect(reg, name, candidate, if promote then Production else Archived);
    SetStageEffect(SetStage(reg, name, candidate, Production), name, production, Archived);
  }

  /** A model's comparison transitions depend only on that model's stages. */
  lemma RoleDependsOnOwnStages(x: Registry, y: Registry, name: string, candidate: Version,
                               production: Version, promote: bool)
    requires name in x && name in y && x[name] == y[name]
    ensures var ts := RoleTransitions(name, candidate, production, promote);
            name in ApplyAll(x, ts) && name in ApplyAll(y, ts) && ApplyAll(x, ts)[name] == ApplyAll(y, ts)[name]
  {
    RoleTransitionsApplied(x, name, candidate, production, promote);
    RoleTransitionsApplied(y, name, candidate, production, promote);
  }

  /** When both models were compared, the regression transitions come first. */
  lemma RunWhenCompared(reg: Registry,
                        er: Version -> Option<RegressionMetrics>,
                        ec: Version -> Option<ClassificationMetrics>)
    requires Decide(reg, er, ec).outcome.Compared?
    ensures var o := Decide(reg, er, ec).outcome;
            var regTs := RoleTransitions(RegressionModel, GetLatestVersion(reg, RegressionModel, NoStage).value,
                                         GetLatestVersion(reg, RegressionModel, Production).value, o.regressionPromoted);
            var clsTs := RoleTransitions(ClassificationModel, GetLatestVersion(reg, ClassificationModel, NoStage).value,
                                         GetLatestVersion(reg, ClassificationModel, Production).value, o.classificationPromoted);
            Run(reg, er, ec) == ApplyAll(ApplyAll(reg, regTs), clsTs)
  {
    var o := Decide(reg, er, ec).outcome;
    var regTs := RoleTransitions(RegressionModel, GetLatestVersion(reg, RegressionModel, NoStage).value,
                                 GetLatestVersion(reg, RegressionModel, Production).value, o.regressionPromoted);
    var clsTs := RoleTransitions(ClassificationModel, GetLatestVersion(reg, ClassificationModel, NoStage).value,
                                 GetLatestVersion(reg, ClassificationModel, Production).value, o.classificationPromoted);
    assert Decide(reg, er, ec).transitions == regTs + clsTs;
    ApplyAllAppend(reg, regTs, clsTs);
  }

  /** Each of main's exits is taken exactly under its condition: no
      stage-"None" version of either model; a candidate of either model that
      does not load; no Production version of either model; a Production
      version of either model that does not load; otherwise both models are
      compared. */
  lemma DecideExits(reg: Registry,
                    er: Version -> Option<RegressionMetrics>,
                    ec: Version -> Option<ClassificationMetrics>)
    ensures var o := Decide(reg, er, ec).outcome;
            var cr := GetLatestVersion(reg, RegressionModel, NoStage);
            var cc := GetLatestVersion(reg, ClassificationModel, NoStage);
            var pr := GetLatestVersion(reg, RegressionModel, Production);
            var pc := GetLatestVersion(reg, ClassificationModel, Production);
            var candidates := cr.Some? && cc.Some?;
            var loaded := candidates && er(cr.value).Some? && ec(cc.value).Some?;
            var deployed := loaded && pr.Some? && pc.Some?;
            var compared := deployed && er(pr.value).Some? && ec(pc.value).Some?;
            (o.NoNewVersion? <==> !candidates) &&
            (o.CandidateNotLoaded? <==> candidates && !loaded) &&
            (o.FirstDeployment? <==> loaded && (pr.None? || pc.None?)) &&
            (o.ProductionNotLoaded? <==> deployed && !compared) &&
            (o.Compared? <==> compared)
  {
  }

  /** main moves stages only for the two models, and never adds or removes
      a version. */
  lemma RunKeepsVersions(reg: Registry,
                         er: Version -> Option<RegressionMetrics>,
                         ec: Version -> Option<ClassificationMetrics>)
    ensures forall m :: m in Run(reg, er, ec) <==> m in reg
    ensures forall m :: m in reg ==> |Run(reg, er, ec)[m]| == |reg[m]|
    ensures forall m :: m in reg && m != RegressionModel && m != ClassificationModel ==> Run(reg, er, ec)[m] == reg[m]
  {
    var d := Decide(reg, er, ec);
    var after := Run(reg, er, ec);
    if d.outcome.FirstDeployment? {
      var t := d.transitions[0];
      var u := d.transitions[1];
      assert d.transitions == [t, u];
      ApplyTwo(reg, t, u);
    } else if d.outcome.Compared? {
      RunWhenCompared(reg, er, ec);
      var o := d.outcome;
      var cr := GetLatestVersion(reg, RegressionModel, NoStage).value;
      var pr := GetLatestVersion(reg, RegressionModel, Production).value;
      var cc := GetLatestVersion(reg, ClassificationModel, NoStage).value;
      var pc := GetLatestVersion(reg, ClassificationModel, Production).value;
      var mid := ApplyAll(reg, RoleTransitions(RegressionModel, cr, pr, o.regressionPromoted));
      forall m ensures (m in after <==> m in reg) && (m in reg ==> |after[m]| == |reg[m]|)
                       && (m in reg && m != RegressionModel && m != ClassificationModel ==> after[m] == reg[m])
      {
        RoleKeepsShape(reg, RegressionModel, cr, pr, o.regressionPromoted, m);
        RoleKeepsShape(mid, ClassificationModel, cc, pc, o.classificationPromoted, m);
      }
    }
  }

  /** The comparison rule: a candidate replaces the Production version only
      when it wins on both of its model's metrics. */
  lemma ComparisonRule(reg: Registry,
                       er: Version -> Option<RegressionMetrics>,
                       ec: Version -> Option<ClassificationMetrics>)
    requires Decide(reg, er, ec).outcome.Compared?
    ensures var o := Decide(reg, er, ec).outcome;
            var cr := GetLatestVersion(reg, RegressionModel, NoStage).value;
            var pr := GetLatestVersion(reg, RegressionModel, Production).value;
            var cc := GetLatestVersion(reg, ClassificationModel, NoStage).value;
            var pc := GetLatestVersion(reg, ClassificationModel, Production).value;
            er(cr).Some? && er(pr).Some? && ec(cc).Some? && ec(pc).Some? &&
            (o.regressionPromoted <==> er(cr).value.mse < er(pr).value.mse && er(cr).value.evs > er(pr).value.evs) &&
            (o.classificationPromoted <==> ec(cc).value.accuracy > ec(pc).value.accuracy && ec(cc).value.f1 > ec(pc).value.f1)
  {
  }

  /** After a comparison, a model's candidate is in Production if it won and
      Archived otherwise; the old Production version is Archived exactly when
      the candidate won; every other version keeps its stage. */
  lemma ComparedRole(reg: Registry,
                     er: Version -> Option<RegressionMetrics>,
                     ec: Version -> Option<ClassificationMetrics>,
                     name: string)
    requires Decide(reg, er, ec).outcome.Compared?
    requires name == RegressionModel || name == ClassificationModel
    ensures var after := Run(reg, er, ec);
            var c := GetLatestVersion(reg, name, NoStage).value;
            var p := GetLatestVersion(reg, name, Production).value;
            var promoted := RolePromoted(Decide(reg, er, ec).outcome, name);
            name in after && name in reg && |after[name]| == |reg[name]| && c != p &&
            StageAt(after, name, c) == Some(if promoted then Production else Archived) &&
            StageAt(after, name, p) == Some(if promoted then Archived else Production) &&
            forall w :: w != c && w != p ==> StageAt(after, name, w) == StageAt(reg, name, w)
  {
    NamesDiffer();
    RunWhenCompared(reg, er, ec);
    var o := Decide(reg, er, ec).outcome;
    TwoRolesEffect(reg, RegressionModel, GetLatestVersion(reg, RegressionModel, NoStage).value,
                   GetLatestVersion(reg, RegressionModel, Production).value, o.regressionPromoted,
                   ClassificationModel, GetLatestVersion(reg, ClassificationModel, NoStage).value,
                   GetLatestVersion(reg, ClassificationModel, Production).value, o.classificationPromoted,
                   name);
  }

  /** The effect on either model of the two models' transitions in turn. */
  lemma TwoRolesEffect(reg: Registry,
                       first: string, c1: Version, p1: Version, promote1: bool,
                       second: string, c2: Version, p2: Version, promote2: bool,
                       name: string)
    requires first != second && (name == first || name == second)
    requires c1 != p1 && StageAt(reg, first, c1).Some? && StageAt(reg, first, p1).Some?
    requires c2 != p2 && StageAt(reg, second, c2).Some? && StageAt(reg, second, p2).Some?
    ensures var after := ApplyAll(ApplyAll(reg, RoleTransitions(first, c1, p1, promote1)),
                                  RoleTransitions(second, c2, p2, promote2));
            var c := if name == first then c1 else c2;
            var p := if name == first then p1 else p2;
            var promoted := if name == first then promote1 else promote2;
            name in after && name in reg && |after[name]| == |reg[name]| &&
            StageAt(after, name, c) == Some(if promoted then Production else Archived) &&
            StageAt(after, name, p) == (if promoted then Some(Archived) else StageAt(reg, name, p)) &&
            forall w :: w != c && w != p ==> StageAt(after, name, w) == StageAt(reg, name, w)
  {
    var mid := ApplyAll(reg, RoleTransitions(first, c1, p1, promote1));
    var after := ApplyAll(mid, RoleTransitions(second, c2, p2, promote2));
    RoleKeepsShape(reg, first, c1, p1, promote1, second);
    RoleKeepsShape(mid, second, c2, p2, promote2, first);
    if name == first {
      RoleEffect(reg, first, c1, p1, promote1);
      assert after[first] == mid[first];
      assert forall w :: StageAt(after, first, w) == StageAt(mid, first, w);
    } else {
      assert mid[second] == reg[second];
      assert forall w :: StageAt(mid, second, w) == StageAt(reg, second, w);
      RoleEffect(mid, second, c2, p2, promote2);
    }
  }

  /** A comparison keeps a model with at most one Production version at
      exactly one: the winner of the comparison. */
  lemma ComparisonKeepsSingleProduction(reg: Registry,
                                        er: Version -> Option<RegressionMetrics>,
                                        ec: Version -> Option<ClassificationMetrics>,
                                        name: string)
    requires Decide(reg, er, ec).outcome.Compared?
    requires name == RegressionModel || name == ClassificationModel
    requires name in reg && AtMostOneProduction(reg[name])
    ensures var after := Run(reg, er, ec);
            var winner := if RolePromoted(Decide(reg, er, ec).outcome, name)
                          then GetLatestVersion(reg, name, NoStage).value
                          else GetLatestVersion(reg, name, Production).value;
            InProduction(after, name, winner) && AtMostOneProduction(after[name])
  {
    var after := Run(reg, er, ec);
    ComparedRole(reg, er, ec, name);
    RoleOnIndices(reg, after, name, GetLatestVersion(reg, name, NoStage).value,
                  GetLatestVersion(reg, name, Production).value, RolePromoted(Decide(reg, er, ec).outcome, name));
  }

  /** The comparison's effect on one model, read on version indices. */
  lemma RoleOnIndices(reg: Registry, after: Registry, name: string, c: Version, p: Version, promoted: bool)
    requires name in reg && name in after && |after[name]| == |reg[name]| && c != p
    requires StageAt(after, name, c) == Some(if promoted then Production else Archived)
    requires StageAt(after, name, p) == Some(if promoted then Archived else Production)
    requires forall w :: w != c && w != p ==> StageAt(after, name, w) == StageAt(reg, name, w)
    requires StageAt(reg, name, p) == Some(Production) && AtMostOneProduction(reg[name])
    ensures InProduction(after, name, if promoted then c else p) && AtMostOneProduction(after[name])
  {
    forall i | 0 <= i < |reg[name]| && i != c - 1 && i != p - 1 ensures after[name][i] == reg[name][i] {
      var w: Version := i + 1;
      assert StageAt(after, name, w) == StageAt(reg, name, w);
    }
    SingleProductionAfterRole(reg[name], after[name], c - 1, p - 1, promoted);
  }

  /** On stage sequences: archiving the old Production version and promoting
      the candidate, or archiving the candidate, keeps one Production entry. */
  lemma SingleProductionAfterRole(before: seq<Stage>, after: seq<Stage>, c: int, p: int, promoted: bool)
    requires |after| == |before| && 0 <= c < |before| && 0 <= p < |before| && c != p
    requires before[p] == Production && AtMostOneProduction(before)
    requires after[c] == (if promoted then Production else Archived)
    requires after[p] == (if promoted then Archived else Production)
    requires forall i :: 0 <= i < |before| && i != c && i != p ==> after[i] == before[i]
    ensures after[if promoted then c else p] == Production && AtMostOneProduction(after)
  {
  }

  /** The first deployment puts both candidates into Production and changes
      nothing else. */
  lemma FirstDeploymentStages(reg: Registry,
                              er: Version -> Option<RegressionMetrics>,
                              ec: Version -> Option<ClassificationMetrics>)
    requires Decide(reg, er, ec).outcome.FirstDeployment?
    ensures var after := Run(reg, er, ec);
            var cr := GetLatestVersion(reg, RegressionModel, NoStage).value;
            var cc := GetLatestVersion(reg, ClassificationModel, NoStage).value;
            InProduction(after, RegressionModel, cr) && InProduction(after, ClassificationModel, cc) &&
            forall m, w :: !(m == RegressionModel && w == cr) && !(m == ClassificationModel && w == cc) ==>
              StageAt(after, m, w) == StageAt(reg, m, w)
  {
    var d := Decide(reg, er, ec);
    var cr := GetLatestVersion(reg, RegressionModel, NoStage).value;
    var cc := GetLatestVersion(reg, ClassificationModel, NoStage).value;
    assert d.transitions == [Transition(RegressionModel, cr, Production), Transition(ClassificationModel, cc, Production)];
    ApplyTwo(reg, d.transitions[0], d.transitions[1]);
    SetStageEffect(reg, RegressionModel, cr, Production);
    SetStageEffect(SetStage(reg, RegressionModel, cr, Production), ClassificationModel, cc, Production);
    NamesDiffer();
  }

  /** The first deployment runs when EITHER model lacks a Production version;
      the other model's Production version is kept, so that model then has
      two versions in Production. */
  lemma FirstDeploymentCanLeaveTwoProductions(reg: Registry,
                                              er: Version -> Option<RegressionMetrics>,
                                              ec: Version -> Option<ClassificationMetrics>,
                                              name: string, p: Version)
    requires Decide(reg, er, ec).outcome.FirstDeployment?
    requires name == RegressionModel || name == ClassificationModel
    requires GetLatestVersion(reg, name, Production) == Some(p)
    ensures var c := GetLatestVersion(reg, name, NoStage).value;
            c != p && InProduction(Run(reg, er, ec), name, c) && InProduction(Run(reg, er, ec), name, p)
  {
    var c := GetLatestVersion(reg, name, NoStage).value;
    assert c != p;
    FirstDeploymentStages(reg, er, ec);
    NamesDiffer();
    var after := Run(reg, er, ec);
    assert StageAt(after, name, p) == StageAt(reg, name, p);
  }

  /** A model without a Production version gets exactly one at the first
      deployment: its candidate. */
  lemma FirstDeploymentSingleProduction(reg: Registry,
                                        er: Version -> Option<RegressionMetrics>,
                                        ec: Version -> Option<ClassificationMetrics>,
                                        name: string)
    requires Decide(reg, er, ec).outcome.FirstDeployment?
    requires name == RegressionModel || name == ClassificationModel
    requires GetLatestVersion(reg, name, Production).None?
    ensures var after := Run(reg, er, ec);
            InProduction(after, name, GetLatestVersion(reg, name, NoStage).value) && AtMostOneProduction(after[name])
  {
    FirstDeploymentStages(reg, er, ec);
    NamesDiffer();
    var after := Run(reg, er, ec);
    var c := GetLatestVersion(reg, name, NoStage).value;
    forall i | 0 <= i < |after[name]| && after[name][i] == Production ensures i + 1 == c {
      var w: Version := i + 1;
      assert StageAt(after, name, w) == Some(Production);
      assert w != c ==> StageAt(reg, name, w) == StageAt(after, name, w);
    }
  }

  /** The regression model's fate does not depend on the classification
      metrics, once both models were compared. */
  lemma RegressionIndependentOfClassification(reg: Registry,
                                              er: Version -> Option<RegressionMetrics>,
                                              ec1: Version -> Option<ClassificationMetrics>,
                                              ec2: Version -> Option<ClassificationMetrics>)
    requires Decide(reg, er, ec1).outcome.Compared? && Decide(reg, er, ec2).outcome.Compared?
    ensures RegressionModel in Run(reg, er, ec1) && RegressionModel in Run(reg, er, ec2)
    ensures Run(reg, er, ec1)[RegressionModel] == Run(reg, er, ec2)[RegressionModel]
  {
    NamesDiffer();
    RunWhenCompared(reg, er, ec1);
    RunWhenCompared(reg, er, ec2);
    var o1 := Decide(reg, er, ec1).outcome;
    var o2 := Decide(reg, er, ec2).outcome;
    assert o1.regressionPromoted == o2.regressionPromoted;
    var cr := GetLatestVersion(reg, RegressionModel, NoStage).value;
    var pr := GetLatestVersion(reg, RegressionModel, Production).value;
    var cc := GetLatestVersion(reg, ClassificationModel, NoStage).value;
    var pc := GetLatestVersion(reg, ClassificationModel, Production).value;
    var mid := ApplyAll(reg, RoleTransitions(RegressionModel, cr, pr, o1.regressionPromoted));
    RoleKeepsShape(reg, RegressionModel, cr, pr, o1.regressionPromoted, RegressionModel);
    RoleKeepsShape(mid, ClassificationModel, cc, pc, o1.classificationPromoted, RegressionModel);
    RoleKeepsShape(mid, ClassificationModel, cc, pc, o2.classificationPromoted, RegressionModel);
  }

  /** The classification model's fate does not depend on the regression
      metrics, once both models were compared. */
  lemma ClassificationIndependentOfRegression(reg: Registry,
                                              er1: Version -> Option<RegressionMetrics>,
                                              er2: Version -> Option<RegressionMetrics>,
                                              ec: Version -> Option<ClassificationMetrics>)
    requires Decide(reg, er1, ec).outcome.Compared? && Decide(reg, er2, ec).outcome.Compared?
    ensures ClassificationModel in Run(reg, er1, ec) && ClassificationModel in Run(reg, er2, ec)
    ensures Run(reg, er1, ec)[ClassificationModel] == Run(reg, er2, ec)[ClassificationModel]
  {
    NamesDiffer();
    RunWhenCompared(reg, er1, ec);
    RunWhenCompared(reg, er2, ec);
    var o1 := Decide(reg, er1, ec).outcome;
    var o2 := Decide(reg, er2, ec).outcome;
    assert o1.classificationPromoted == o2.classificationPromoted;
    var cr := GetLatestVersion(reg, RegressionModel, NoStage).value;
    var pr := GetLatestVersion(reg, RegressionModel, Production).value;
    var cc := GetLatestVersion(reg, ClassificationModel, NoStage).value;
    var pc := GetLatestVersion(reg, ClassificationModel, Production).value;
    var mid1 := ApplyAll(reg, RoleTransitions(RegressionModel, cr, pr, o1.regressionPromoted));
    var mid2 := ApplyAll(reg, RoleTransitions(RegressionModel, cr, pr, o2.regressionPromoted));
    RoleKeepsShape(reg, RegressionModel, cr, pr, o1.regressionPromoted, ClassificationModel);
    RoleKeepsShape(reg, RegressionModel, cr, pr, o2.regressionPromoted, ClassificationModel);
    RoleDependsOnOwnStages(mid1, mid2, ClassificationModel, cc, pc, o1.classificationPromoted);
  }
}
