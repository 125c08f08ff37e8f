/** Index sums of scaled scores and their conversion to composites (scoring.py,
    `compute_index_sums` and `convert_sums_to_composites`). */
module Composites {
  import opened Results

  datatype CompositionError =
    | MissingSubtestScore(subtest: string)   // a required subtest has no scaled score
    | ConversionUnavailable                  // no sum-to-composite table exists yet
    | MissingComposite(index: string)        // a converter result lacks an index

  /** The nine subtests the sums read, in the order the source reads them. */
  const RequiredSubtests: seq<string> :=
    ["SEMELHANCAS", "VOCABULARIO", "COMPREENSAO", "CUBOS", "CONCEITOS",
     "DIGITOS", "SEQ_NUM_LETRAS", "CODIGO", "PROCURAR_SIMBOLOS"]

  const IndexNames: set<string> := {"ICV", "IOP", "IMO", "IVP"}

  /** Which index a subtest counts towards: verbal comprehension (ICV), perceptual
      reasoning (IOP), working memory (IMO) or processing speed (IVP). */
  function IndexOf(subtest: string): Option<string> {
    if subtest in {"SEMELHANCAS", "VOCABULARIO", "COMPREENSAO"} then Some("ICV")
    else if subtest in {"CUBOS", "CONCEITOS"} then Some("IOP")
    else if subtest in {"DIGITOS", "SEQ_NUM_LETRAS"} then Some("IMO")
    else if subtest in {"CODIGO", "PROCURAR_SIMBOLOS"} then Some("IVP")
    else None
  }

  /** Reference sum: the scores of the listed subtests that belong to `index`. */
  function GroupSum(scaled: map<string, int>, subtests: seq<string>, index: string): int
    requires forall i :: 0 <= i < |subtests| ==> subtests[i] in scaled
  {
    if |subtests| == 0 then 0
    else
      (if IndexOf(subtests[0]) == Some(index) then scaled[subtests[0]] else 0)
      + GroupSum(scaled, subtests[1..], index)
  }

  predicate HasRequired(scaled: map<string, int>) {
    && "SEMELHANCAS" in scaled && "VOCABULARIO" in scaled && "COMPREENSAO" in scaled
    && "CUBOS" in scaled && "CONCEITOS" in scaled
    && "DIGITOS" in scaled && "SEQ_NUM_LETRAS" in scaled
    && "CODIGO" in scaled && "PROCURAR_SIMBOLOS" in scaled
  }

  /** The reference sums over the nine required subtests, written out per index. */
  lemma GroupSumsOfRequired(scaled: map<string, int>)
    requires forall i :: 0 <= i < |RequiredSubtests| ==> RequiredSubtests[i] in scaled
    ensures HasRequired(scaled)
    ensures GroupSum(scaled, RequiredSubtests, "ICV")
            == scaled["SEMELHANCAS"] + scaled["VOCABULARIO"] + scaled["COMPREENSAO"]
    ensures GroupSum(scaled, RequiredSubtests, "IOP") == scaled["CUBOS"] + scaled["CONCEITOS"]
    ensures GroupSum(scaled, RequiredSubtests, "IMO") == scaled["DIGITOS"] + scaled["SEQ_NUM_LETRAS"]
    ensures GroupSum(scaled, RequiredSubtests, "IVP") == scaled["CODIGO"] + scaled["PROCURAR_SIMBOLOS"]
  {
    var r := RequiredSubtests;
    assert r[0] in scaled && r[1] in scaled && r[2] in scaled && r[3] in scaled && r[4] in scaled;
    assert r[5] in scaled && r[6] in scaled && r[7] in scaled && r[8] in scaled;
    forall index | index in IndexNames
      ensures GroupSum(scaled, r, index)
              == (if index == "ICV" then scaled["SEMELHANCAS"] + scaled["VOCABULARIO"] + scaled["COMPREENSAO"]
                  else if index == "IOP" then scaled["CUBOS"] + scaled["CONCEITOS"]
                  else if index == "IMO" then scaled["DIGITOS"] + scaled["SEQ_NUM_LETRAS"]
                  else scaled["CODIGO"] + scaled["PROCURAR_SIMBOLOS"])
    {
      assert r[9..] == [];
      assert GroupSum(scaled, r[8..], index) == (if index == "IVP" then scaled[r[8]] else 0);
      assert GroupSum(scaled, r[7..], index) == (if index == "IVP" then scaled[r[7]] + scaled[r[8]] else 0);
      assert GroupSum(scaled, r[6..], index) == GroupSum(scaled, r[7..], index) + (if index == "IMO" then scaled[r[6]] else 0);
      assert GroupSum(scaled, r[5..], index) == GroupSum(scaled, r[6..], index) + (if index == "IMO" then scaled[r[5]] else 0);
      assert GroupSum(scaled, r[4..], index) == GroupSum(scaled, r[5..], index) + (if index == "IOP" then scaled[r[4]] else 0);
      assert GroupSum(scaled, r[3..], index) == GroupSum(scaled, r[4..], index) + (if index == "IOP" then scaled[r[3]] else 0);
      assert GroupSum(scaled, r[2..], index) == GroupSum(scaled, r[3..], index) + (if index == "ICV" then scaled[r[2]] else 0);
      assert GroupSum(scaled, r[1..], index) == GroupSum(scaled, r[2..], index) + (if index == "ICV" then scaled[r[1]] else 0);
      assert GroupSum(scaled, r, index) == GroupSum(scaled, r[1..], index) + (if index == "ICV" then scaled[r[0]] else 0);
    }
  }

  /** The first of `subtests` with no score, in order. */
  function FirstMissing(scaled: map<string, int>, subtests: seq<string>): (r: Option<string>)
    ensures r.None? <==> forall i :: 0 <= i < |subtests| ==> subtests[i] in scaled
    ensures r.Some? ==> exists i :: 0 <= i < |subtests| && subtests[i] == r.value && r.value !in scaled
                                    && forall j :: 0 <= j < i ==> subtests[j] in scaled
  {
    if |subtests| == 0 then None
    else if subtests[0] !in scaled then Some(subtests[0])
    else
      var r := FirstMissing(scaled, subtests[1..]);
      if r.Some? then
        var i :| 0 <= i < |subtests[1..]| && subtests[1..][i] == r.value && r.value !in scaled
                 && forall j :: 0 <= j < i ==> subtests[1..][j] in scaled;
        assert subtests[i + 1] == r.value;
        r
      else r
  }

  /** `compute_index_sums`: the four index sums, failing on the first required subtest that
      has no score. Scores of any other subtest are ignored. */
  function ComputeIndexSums(scaled: map<string, int>): (r: Result<map<string, int>, CompositionError>)
    ensures r.Err? <==> exists i :: 0 <= i < |RequiredSubtests| && RequiredSubtests[i] !in scaled
    ensures r.Err? ==> r.error.MissingSubtestScore?
                       && r.error.subtest in RequiredSubtests && r.error.subtest !in scaled
    ensures r.Err? ==> exists i :: 0 <= i < |RequiredSubtests| && RequiredSubtests[i] == r.error.subtest
                                   && forall j :: 0 <= j < i ==> RequiredSubtests[j] in scaled
    ensures r.Ok? ==> r.value.Keys == IndexNames
    ensures r.Ok? ==> forall index :: index in IndexNames ==>
                        r.value[index] == GroupSum(scaled, RequiredSubtests, index)
  {
    match FirstMissing(scaled, RequiredSubtests)
    case Some(s) => Err(MissingSubtestScore(s))
    case None =>
      GroupSumsOfRequired(scaled);
      var icv := scaled["SEMELHANCAS"] + scaled["VOCABULARIO"] + scaled["COMPREENSAO"];
      var iop := scaled["CUBOS"] + scaled["CONCEITOS"];
      var imo := scaled["DIGITOS"] + scaled["SEQ_NUM_LETRAS"];
      var ivp := scaled["CODIGO"] + scaled["PROCURAR_SIMBOLOS"];
      Ok(map["ICV" := icv, "IOP" := iop, "IMO" := imo, "IVP" := ivp])
  }

  predicate AgreeOnRequired(a: map<string, int>, b: map<string, int>) {
    forall s :: s in RequiredSubtests ==> (s in a <==> s in b) && (s in a ==> a[s] == b[s])
  }

  /** Only the nine required subtests influence the sums. */
  lemma IndexSumsIgnoreOtherSubtests(a: map<string, int>, b: map<string, int>)
    requires AgreeOnRequired(a, b)
    ensures ComputeIndexSums(a) == ComputeIndexSums(b)
  {
    FirstMissingAgree(a, b, RequiredSubtests);
    if FirstMissing(a, RequiredSubtests).None? {
      forall index | index in IndexNames
        ensures GroupSum(a, RequiredSubtests, index) == GroupSum(b, RequiredSubtests, index)
      {
        GroupSumAgree(a, b, RequiredSubtests, index);
      }
    }
  }

  lemma {:induction false} FirstMissingAgree(a: map<string, int>, b: map<string, int>, subtests: seq<string>)
    requires forall s :: s in subtests ==> (s in a <==> s in b)
    ensures FirstMissing(a, subtests) == FirstMissing(b, subtests)
  {
    if |subtests| > 0 {
      FirstMissingAgree(a, b, subtests[1..]);
    }
  }

  lemma {:induction false} GroupSumAgree(a: map<string, int>, b: map<string, int>, subtests: seq<string>, index: string)
    requires forall i :: 0 <= i < |subtests| ==> subtests[i] in a && subtests[i] in b
    requires forall s :: s in subtests ==> a[s] == b[s]
    ensures GroupSum(a, subtests, index) == GroupSum(b, subtests, index)
  {
    if |subtests| > 0 {
      assert subtests[0] in subtests;
      GroupSumAgree(a, b, subtests[1..], index);
    }
  }

  /** Changing the score of one required subtest moves only the sum of its own index, and
      by exactly the change. */
  lemma ChangingOneScoreMovesOnlyItsIndex(scaled: map<string, int>, subtest: string, v: int)
    requires subtest in RequiredSubtests
    requires ComputeIndexSums(scaled).Ok?
    ensures ComputeIndexSums(scaled[subtest := v]).Ok?
    ensures var before := ComputeIndexSums(scaled).value;
            var after := ComputeIndexSums(scaled[subtest := v]).value;
            forall index :: index in IndexNames ==>
              after[index] == before[index] + (if IndexOf(subtest) == Some(index) then v - scaled[subtest] else 0)
  {
  }

  /** The pluggable conversion from index sums to composites (ICV, IOP, IMO, IVP, QIT). */
  type Converter = map<string, int> -> Result<map<string, int>, CompositionError>

  /** `convert_sums_to_composites` as the repository has it: no conversion table exists,
      so every call fails. */
  function ConvertSumsToComposites(sums: map<string, int>): (r: Result<map<string, int>, CompositionError>)
    ensures r == Err(ConversionUnavailable)
  {
    Err(ConversionUnavailable)
  }
}
