/** The fallback section of the configuration check (internal/config/validate.go): every model may name another one, by
  name or alias, to fall back to, and the chains must end. */
module Fallback {
  import opened Common

  datatype ModelConfig = ModelConfig(name: string, aliases: seq<string>, fallback: string)

  datatype Error =
    | SelfReference(model: string)
    | TargetNotFound(model: string, target: string)
    | Cycle(model: string, through: string)

  function AddAliases(byName: map<string, nat>, aliases: seq<string>, i: nat): map<string, nat> {
    if aliases == [] then byName else AddAliases(byName, Front(aliases), i)[Last(aliases) := i]
  }

  /** The lookup table over the first n models; later entries replace earlier ones. */
  function ByName(models: seq<ModelConfig>, n: nat): (r: map<string, nat>)
    requires n <= |models|
  {
    if n == 0 then map[]
    else AddAliases(ByName(models, n - 1)[models[n - 1].name := n - 1], models[n - 1].aliases, n - 1)
  }

  predicate Answers(model: ModelConfig, name: string) {
    name == model.name || name in model.aliases
  }

  lemma {:induction false} AliasesAnswer(byName: map<string, nat>, aliases: seq<string>, i: nat, name: string)
    ensures name in AddAliases(byName, aliases, i) <==> name in byName || name in aliases
    ensures name in AddAliases(byName, aliases, i) ==>
      AddAliases(byName, aliases, i)[name] == if name in aliases then i else byName[name]
  {
    if aliases != [] {
      AliasesAnswer(byName, Front(aliases), i, name);
      assert aliases == Front(aliases) + [Last(aliases)];
    }
  }

  /** A name leads to the last model that has it as its name or as an alias, and to none if no model has. */
  lemma {:induction false} LastModelAnswers(models: seq<ModelConfig>, n: nat, name: string)
    requires n <= |models|
    ensures name in ByName(models, n) <==> exists i :: 0 <= i < n && Answers(models[i], name)
    ensures name in ByName(models, n) ==>
      && ByName(models, n)[name] < n && Answers(models[ByName(models, n)[name]], name)
      && forall i :: ByName(models, n)[name] < i < n ==> !Answers(models[i], name)
  {
    if n > 0 {
      LastModelAnswers(models, n - 1, name);
      AliasesAnswer(ByName(models, n - 1)[models[n - 1].name := n - 1], models[n - 1].aliases, n - 1, name);
    }
  }

  function Find(models: seq<ModelConfig>, name: string): (r: Option<nat>)
    ensures r.Some? ==> r.value < |models| && Answers(models[r.value], name)
  {
    LastModelAnswers(models, |models|, name);
    if name in ByName(models, |models|) then Some(ByName(models, |models|)[name]) else None
  }

  /** The model n hops down the chain of model i. A chain ends at a model without a fallback or with an unknown one. */
  function Chain(models: seq<ModelConfig>, i: nat, n: nat): (r: Option<nat>)
    requires i < |models|
    ensures r.Some? ==> r.value < |models|
  {
    if n == 0 then Some(i)
    else
      var j := Chain(models, i, n - 1);
      if j == None || models[j.value].fallback == "" then None else Find(models, models[j.value].fallback)
  }

  function NameAt(models: seq<ModelConfig>, i: nat, n: nat): string
    requires i < |models| && Chain(models, i, n).Some?
  {
    models[Chain(models, i, n).value].name
  }

  /** Whether the n-th model down the chain bears a name met before. */
  ghost predicate RevisitsAt(models: seq<ModelConfig>, i: nat, n: nat)
    requires i < |models|
  {
    Chain(models, i, n).Some? && NameAt(models, i, n) in NamesBefore(models, i, n)
  }

  ghost function NamesBefore(models: seq<ModelConfig>, i: nat, n: nat): set<string>
    requires i < |models|
  {
    if n == 0 then {}
    else
      NamesBefore(models, i, n - 1) + if Chain(models, i, n - 1).Some? then {NameAt(models, i, n - 1)} else {}
  }

  ghost predicate Revisits(models: seq<ModelConfig>, i: nat)
    requires i < |models|
  {
    exists n: nat :: RevisitsAt(models, i, n)
  }

  ghost predicate FirstRevisit(models: seq<ModelConfig>, i: nat, n: nat)
    requires i < |models|
  {
    RevisitsAt(models, i, n) && forall m: nat :: m < n ==> !RevisitsAt(models, i, m)
  }

  /** What is reported for one model: at most one error. */
  ghost predicate Reported(models: seq<ModelConfig>, i: nat, errs: seq<Error>)
    requires i < |models|
  {
    var m := models[i];
    if m.fallback == "" then errs == []
    else if m.fallback == m.name then errs == [SelfReference(m.name)]
    else if Find(models, m.fallback) == None then errs == [TargetNotFound(m.name, m.fallback)]
    else if !Revisits(models, i) then errs == []
    else exists n: nat :: FirstRevisit(models, i, n) && errs == [Cycle(m.name, NameAt(models, i, n))]
  }

  /** The errors of the first n models, one model after the other. */
  ghost predicate AllReported(models: seq<ModelConfig>, n: nat, errs: seq<Error>)
    requires n <= |models|
  {
    if n == 0 then errs == []
    else exists k :: 0 <= k <= |errs| && AllReported(models, n - 1, errs[..k]) && Reported(models, n - 1, errs[k..])
  }

  method CheckFallbacks(models: seq<ModelConfig>) returns (errs: seq<Error>)
    ensures AllReported(models, |models|, errs)
  {
    var modelByName := BuildIndex(models);
    errs := [];
    for i := 0 to |models|
      invariant AllReported(models, i, errs)
    {
      var own := CheckModel(models, modelByName, i);
      assert (errs + own)[..|errs|] == errs && (errs + own)[|errs|..] == own;
      errs := errs + own;
    }
  }

  method BuildIndex(models: seq<ModelConfig>) returns (modelByName: map<string, nat>)
    ensures modelByName == ByName(models, |models|)
  {
    modelByName := map[];
    for i := 0 to |models|
      invariant modelByName == ByName(models, i)
    {
      modelByName := modelByName[models[i].name := i];
      ghost var named := modelByName;
      var aliases := models[i].aliases;
      for j := 0 to |aliases|
        invariant modelByName == AddAliases(named, aliases[..j], i)
      {
        modelByName := modelByName[aliases[j] := i];
        assert Front(aliases[..j + 1]) == aliases[..j];
      }
      assert aliases[..|aliases|] == aliases;
    }
  }

  method CheckModel(models: seq<ModelConfig>, modelByName: map<string, nat>, i: nat) returns (errs: seq<Error>)
    requires i < |models| && modelByName == ByName(models, |models|)
    ensures Reported(models, i, errs)
  {
    var m := models[i];
    if m.fallback == "" {
      return [];
    }
    if m.fallback == m.name {
      return [SelfReference(m.name)];
    }
    if m.fallback !in modelByName {
      return [TargetNotFound(m.name, m.fallback)];
    }
    LastModelAnswers(models, |models|, m.fallback);
    var through := Walk(models, modelByName, i, modelByName[m.fallback]);
    errs := if through.Some? then [Cycle(m.name, through.value)] else [];
  }

  /** Follows the chain from the fallback of model i until it ends or meets a name again. */
  method Walk(models: seq<ModelConfig>, modelByName: map<string, nat>, i: nat, target: nat)
    returns (through: Option<string>)
    requires i < |models| && modelByName == ByName(models, |models|)
    requires Chain(models, i, 1) == Some(target)
    ensures through.Some? ==> exists n: nat :: FirstRevisit(models, i, n) && through.value == NameAt(models, i, n)
    ensures through.None? ==> !Revisits(models, i)
  {
    var visited := {models[i].name};
    var curr := target;
    ghost var n := 1;
    while true
      invariant Chain(models, i, n) == Some(curr) && visited == NamesBefore(models, i, n)
      invariant forall m: nat :: m < n ==> !RevisitsAt(models, i, m)
      invariant visited <= AllNames(models)
      decreases AllNames(models) - visited
    {
      if models[curr].name in visited {
        assert FirstRevisit(models, i, n);
        return Some(models[curr].name);
      }
      visited := visited + {models[curr].name};
      if models[curr].fallback == "" || models[curr].fallback !in modelByName {
        forall m: nat | m > n
          ensures Chain(models, i, m) == None
        {
          EndedStaysEnded(models, i, n + 1, m);
        }
        return None;
      }
      curr := modelByName[models[curr].fallback];
      n := n + 1;
    }
  }

  function AllNames(models: seq<ModelConfig>): set<string> {
    set m | m in models :: m.name
  }

  lemma {:induction false} EndedStaysEnded(models: seq<ModelConfig>, i: nat, m: nat, n: nat)
    requires i < |models| && m <= n && Chain(models, i, m) == None
    ensures Chain(models, i, n) == None
  {
    if m < n {
      EndedStaysEnded(models, i, m, n - 1);
    }
  }

  // ---------------------------------------------------------------------------------------------------
  // What an error-free check guarantees
  // ---------------------------------------------------------------------------------------------------

  ghost predicate Sound(models: seq<ModelConfig>, i: nat)
    requires i < |models|
  {
    var m := models[i];
    m.fallback == "" || (m.fallback != m.name && Find(models, m.fallback).Some? && !Revisits(models, i))
  }

  /** No error is reported exactly when every fallback is absent, or names another known model whose chain never meets
      a name twice. */
  lemma {:induction false} NoErrorIffSound(models: seq<ModelConfig>, n: nat, errs: seq<Error>)
    requires n <= |models| && AllReported(models, n, errs)
    ensures errs == [] <==> forall i :: 0 <= i < n ==> Sound(models, i)
  {
    if n > 0 {
      var k :| 0 <= k <= |errs| && AllReported(models, n - 1, errs[..k]) && Reported(models, n - 1, errs[k..]);
      NoErrorIffSound(models, n - 1, errs[..k]);
      assert errs[k..] == [] <==> Sound(models, n - 1);
      assert errs == errs[..k] + errs[k..];
    }
  }

  /** A cycle is reported for a model exactly when its chain meets a name twice, unless the model names itself, which is
      reported as such. */
  lemma CycleReportedIffRevisits(models: seq<ModelConfig>, i: nat, errs: seq<Error>)
    requires i < |models| && Reported(models, i, errs)
    ensures (errs != [] && errs[0].Cycle?) <==> (models[i].fallback != models[i].name && Revisits(models, i))
  {
    if models[i].fallback == "" || Find(models, models[i].fallback) == None {
      forall n: nat
        ensures !RevisitsAt(models, i, n)
      {
        if n > 0 {
          EndedStaysEnded(models, i, 1, n);
        }
      }
    }
  }

  /** Which error a model gets otherwise: for a fallback to its own name, and for one that no model answers to. */
  lemma ErrorKindIff(models: seq<ModelConfig>, i: nat, errs: seq<Error>)
    requires i < |models| && Reported(models, i, errs)
    ensures var m := models[i];
      && |errs| <= 1
      && (errs == [SelfReference(m.name)] <==> m.fallback != "" && m.fallback == m.name)
      && (errs == [TargetNotFound(m.name, m.fallback)] <==>
           m.fallback != "" && m.fallback != m.name && forall j :: 0 <= j < |models| ==> !Answers(models[j], m.fallback))
      && (errs != [] && errs[0].TargetNotFound? ==> errs == [TargetNotFound(m.name, m.fallback)])
      && (errs != [] && errs[0].SelfReference? ==> errs == [SelfReference(m.name)])
  {
    LastModelAnswers(models, |models|, models[i].fallback);
    hide RevisitsAt, ByName;
  }

  /** The name given with a cycle is the first that the chain meets again. */
  lemma CycleNamesFirstMetAgain(models: seq<ModelConfig>, i: nat, errs: seq<Error>)
    requires i < |models| && Reported(models, i, errs) && errs != [] && errs[0].Cycle?
    ensures errs[0].model == models[i].name && MetTwice(models, i, errs[0].through)
  {
    var b: nat :| FirstRevisit(models, i, b) && errs == [Cycle(models[i].name, NameAt(models, i, b))];
    var a := MetBefore(models, i, b, NameAt(models, i, b));
    assert IsAt(models, i, a, errs[0].through) && IsAt(models, i, b, errs[0].through);
  }

  /** Two models down the chain bear the name, and no name is met twice before the second of them. */
  ghost predicate MetTwice(models: seq<ModelConfig>, i: nat, name: string)
    requires i < |models|
  {
    exists a: nat, b: nat :: a < b && IsAt(models, i, a, name) && IsAt(models, i, b, name) &&
      forall m: nat :: m < b ==> !RevisitsAt(models, i, m)
  }

  ghost predicate IsAt(models: seq<ModelConfig>, i: nat, n: nat, name: string)
    requires i < |models|
  {
    Chain(models, i, n).Some? && NameAt(models, i, n) == name
  }

  /** The errors are those of the given models, in order, and these are the ones that are not sound. */
  ghost predicate ErrorsOf(models: seq<ModelConfig>, n: nat, errs: seq<Error>, of: seq<nat>)
    requires n <= |models|
  {
    && |of| == |errs|
    && (forall i :: i in of <==> 0 <= i < n && !Sound(models, i))
    && (forall j, k :: 0 <= j < k < |of| ==> of[j] < of[k])
    && forall k :: 0 <= k < |of| ==> of[k] < n && Reported(models, of[k], [errs[k]])
  }

  /** The errors come in the order of the models they are reported for, one for each model that is not sound. */
  lemma {:induction false} ErrorsInOrder(models: seq<ModelConfig>, n: nat, errs: seq<Error>) returns (of: seq<nat>)
    requires n <= |models| && AllReported(models, n, errs)
    ensures ErrorsOf(models, n, errs, of)
  {
    hide Reported, Sound;
    if n == 0 {
      of := [];
    } else {
      var k :| 0 <= k <= |errs| && AllReported(models, n - 1, errs[..k]) && Reported(models, n - 1, errs[k..]);
      of := ErrorsInOrder(models, n - 1, errs[..k]);
      SoundIffNone(models, n - 1, errs[k..]);
      assert errs == errs[..k] + errs[k..];
      hide ErrorsOf, AllReported;
      OneModelMore(models, n, errs[..k], errs[k..], of);
      of := if errs[k..] == [] then of else of + [n - 1];
    }
  }

  lemma OneModelMore(models: seq<ModelConfig>, n: nat, errs: seq<Error>, own: seq<Error>, of: seq<nat>)
    requires 0 < n <= |models| && ErrorsOf(models, n - 1, errs, of) && Reported(models, n - 1, own)
    requires |own| <= 1 && (own == [] <==> Sound(models, n - 1))
    ensures ErrorsOf(models, n, errs + own, if own == [] then of else of + [n - 1])
  {
    hide Reported, Sound;
    assert forall j :: 0 <= j < |of| ==> of[j] in of;
    assert own != [] ==> own == [own[0]];
  }

  lemma SoundIffNone(models: seq<ModelConfig>, i: nat, errs: seq<Error>)
    requires i < |models| && Reported(models, i, errs)
    ensures |errs| <= 1 && (errs == [] <==> Sound(models, i))
  {
    hide RevisitsAt;
  }

  /** The distinct names met in the first n steps of a chain that does not revisit. */
  lemma {:induction false} NamesMetAreDistinct(models: seq<ModelConfig>, i: nat, n: nat)
    requires i < |models| && Chain(models, i, n).Some?
    requires forall m: nat :: m <= n ==> !RevisitsAt(models, i, m)
    ensures |NamesBefore(models, i, n + 1)| == n + 1 && NamesBefore(models, i, n + 1) <= AllNames(models)
  {
    assert models[Chain(models, i, n).value] in models;
    assert !RevisitsAt(models, i, n);
    var met := NamesBefore(models, i, n);
    if n > 0 {
      NamesMetAreDistinct(models, i, n - 1);
    }
    assert NamesBefore(models, i, n + 1) == met + {NameAt(models, i, n)};
  }

  lemma {:induction false} FewNames(models: seq<ModelConfig>)
    ensures |AllNames(models)| <= |models|
  {
    if models != [] {
      FewNames(Front(models));
      assert models == Front(models) + [Last(models)];
      assert AllNames(models) == AllNames(Front(models)) + {Last(models).name};
    }
  }

  /** A chain of more than |models| - 1 hops meets some name twice. */
  lemma LongChainsRevisit(models: seq<ModelConfig>, i: nat, n: nat)
    requires i < |models| && Chain(models, i, n).Some? && n >= |models|
    ensures Revisits(models, i)
  {
    if !Revisits(models, i) {
      NamesMetAreDistinct(models, i, n);
      SubsetIsSmaller(NamesBefore(models, i, n + 1), AllNames(models));
      FewNames(models);
    }
  }

  /** Without errors every chain ends, within |models| - 1 hops, at a model that has no fallback. */
  lemma {:induction false} ChainsEndWithinModels(models: seq<ModelConfig>, i: nat, n: nat) returns (last: nat)
    requires i < |models| && AllReported(models, |models|, [])
    requires n < |models| && Chain(models, i, n).Some?
    ensures n <= last < |models| && Chain(models, i, last + 1) == None
    ensures Chain(models, i, last).Some? && models[Chain(models, i, last).value].fallback == ""
    decreases |models| - n
  {
    NoErrorIffSound(models, |models|, []);
    var j := Chain(models, i, n).value;
    assert Sound(models, i) && Sound(models, j);
    if models[j].fallback == "" {
      last := n;
    } else {
      if n + 1 == |models| {
        LongChainsRevisit(models, i, n + 1);
        assert Chain(models, i, 1).Some? by {
          if Chain(models, i, 1) == None {
            EndedStaysEnded(models, i, 1, n + 1);
          }
        }
      }
      last := ChainsEndWithinModels(models, i, n + 1);
    }
  }

  // ---------------------------------------------------------------------------------------------------
  // With unique names, as the rest of the check demands
  // ---------------------------------------------------------------------------------------------------

  ghost predicate UniqueNames(models: seq<ModelConfig>) {
    forall i, j :: 0 <= i < j < |models| ==> models[i].name != models[j].name
  }

  ghost predicate Endless(models: seq<ModelConfig>, i: nat)
    requires i < |models|
  {
    forall n: nat :: Chain(models, i, n).Some?
  }

  lemma {:induction false} MetBefore(models: seq<ModelConfig>, i: nat, n: nat, name: string) returns (m: nat)
    requires i < |models| && name in NamesBefore(models, i, n)
    ensures m < n && Chain(models, i, m).Some? && NameAt(models, i, m) == name
  {
    if Chain(models, i, n - 1).Some? && NameAt(models, i, n - 1) == name {
      m := n - 1;
    } else {
      m := MetBefore(models, i, n - 1, name);
    }
  }

  lemma {:induction false} SameModelSameRest(models: seq<ModelConfig>, i: nat, a: nat, b: nat, k: nat)
    requires i < |models| && Chain(models, i, a) == Chain(models, i, b)
    ensures Chain(models, i, a + k) == Chain(models, i, b + k)
  {
    if k > 0 {
      SameModelSameRest(models, i, a, b, k - 1);
    }
  }

  lemma {:induction false} LoopNeverEnds(models: seq<ModelConfig>, i: nat, a: nat, b: nat, n: nat)
    requires i < |models| && a < b && Chain(models, i, b).Some? && Chain(models, i, a) == Chain(models, i, b)
    ensures Chain(models, i, n).Some?
    decreases n
  {
    if n <= b {
      if Chain(models, i, n) == None {
        EndedStaysEnded(models, i, n, b);
      }
    } else {
      LoopNeverEnds(models, i, a, b, n - (b - a));
      SameModelSameRest(models, i, a, b, n - b);
    }
  }

  /** A chain meets a name twice exactly when it never ends, so the reported cycles are the real ones. */
  lemma RevisitsIffEndless(models: seq<ModelConfig>, i: nat)
    requires i < |models| && UniqueNames(models)
    ensures Revisits(models, i) <==> Endless(models, i)
  {
    if Revisits(models, i) {
      var b: nat :| RevisitsAt(models, i, b);
      var a := MetBefore(models, i, b, NameAt(models, i, b));
      forall n: nat
        ensures Chain(models, i, n).Some?
      {
        LoopNeverEnds(models, i, a, b, n);
      }
    }
    if Endless(models, i) {
      var n: nat := |models|;
      assert Chain(models, i, n).Some?;
      LongChainsRevisit(models, i, n);
    }
  }
}
