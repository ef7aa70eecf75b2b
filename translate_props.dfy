/** What `make_imcom_config` promises about the dictionary it builds, proved
    of the translation Translate that MakeImcomConfig computes. */
module TranslateProperties {
  import opened PyValues
  import opened DecimalText
  import opened ImcomKeys
  import opened ImcomConfig

  /** The number of extra output PSFs whose indexed keys are added: `n_out`
      when it is an int greater than 1, and none otherwise. */
  function ExtraOutputs(src: Source): nat
  {
    if "n_out" in src && src["n_out"].IntV? && src["n_out"].i > 1 then src["n_out"].i else 0
  }

  /** The linear-algebra keys the selector calls for. */
  function ModeKeys(src: Source): set<string>
  {
    if "linear_algebra" !in src then {}
    else if src["linear_algebra"] == StrV("Iterative") then IterativeKeys
    else if src["linear_algebra"] == StrV("Empirical") then EmpiricalKeys
    else {}
  }

  /** `config_yaml[field][i]` succeeds for every `i` in `1..n`. */
  predicate ListReadable(src: Source, field: string, n: int)
  {
    field in src && Items(src[field]).Some? && n < |Items(src[field]).value|
  }

  /** Every read the translation performs succeeds. */
  predicate Readable(src: Source)
  {
    && (forall j :: 0 <= j < |FixedFields| ==> FixedFields[j].source in src)
    && "n_out" in src
    && (match src["n_out"]
        case IntV(n) => n > 1 ==> ListReadable(src, "outpsf_extra", n) && ListReadable(src, "sigmatarget_extra", n)
        case BoolV(_) => true
        case RealV(x) => x <= 1.0
        case _ => false)
    && "linear_algebra" in src
    && (src["linear_algebra"] == StrV("Iterative") ==> "iter_rtol" in src && "iter_max" in src)
    && (src["linear_algebra"] == StrV("Empirical") ==> "no_qlt_ctrl" in src)
  }

  // ---- the indexed part ----

  lemma IndexedKeysStep(n: nat)
    requires n >= 1
    ensures IndexedKeys(n) == IndexedKeys(n - 1) + {OutPsfKey(n + 1), ExtraSmoothKey(n + 1)}
  {
  }

  /** The loop writes exactly the keys `OUTPSF{i+1}` and `EXTRASMOOTH{i+1}`
      for `i` in `1..n`. */
  lemma {:induction false} IndexedEntriesKeys(psfs: seq<Value>, sigmas: seq<Value>, n: nat)
    requires n < |psfs| && n < |sigmas|
    ensures IndexedEntries(psfs, sigmas, n).Keys == IndexedKeys(n)
  {
    if n > 0 {
      IndexedEntriesKeys(psfs, sigmas, n - 1);
      IndexedKeysStep(n);
    } else {
      assert IndexedKeys(0) == {};
    }
  }

  /** Item `i` of each list ends up under the key with suffix `i + 1`: no later
      write of the loop overwrites an earlier one. */
  lemma {:induction false} IndexedEntriesAt(psfs: seq<Value>, sigmas: seq<Value>, n: nat, i: nat)
    requires n < |psfs| && n < |sigmas| && 1 <= i <= n
    ensures OutPsfKey(i + 1) in IndexedEntries(psfs, sigmas, n)
    ensures IndexedEntries(psfs, sigmas, n)[OutPsfKey(i + 1)] == psfs[i]
    ensures ExtraSmoothKey(i + 1) in IndexedEntries(psfs, sigmas, n)
    ensures IndexedEntries(psfs, sigmas, n)[ExtraSmoothKey(i + 1)] == sigmas[i]
  {
    IndexedKeysInjective(i + 1, n + 1);
    IndexedKeysInjective(n + 1, i + 1);
    if i < n {
      IndexedEntriesAt(psfs, sigmas, n - 1, i);
    }
  }

  /** Every indexed key has a suffix of at least 2 and is new: it is no fixed,
      disabled or linear-algebra key. */
  lemma IndexedKeysAreNew(n: nat)
    ensures OutPsfKey(1) !in IndexedKeys(n) && ExtraSmoothKey(1) !in IndexedKeys(n)
    ensures IndexedKeys(n) !! Targets(FixedFields)
    ensures IndexedKeys(n) !! DisabledKeys + IterativeKeys + EmpiricalKeys
  {
    forall t | t in IndexedKeys(n)
      ensures t != OutPsfKey(1) && t != ExtraSmoothKey(1)
      ensures t !in Targets(FixedFields) && t !in DisabledKeys + IterativeKeys + EmpiricalKeys
    {
      var k: nat :| 2 <= k <= n + 1 && (t == OutPsfKey(k) || t == ExtraSmoothKey(k));
      IndexedKeysInjective(k, 1);
      IndexedKeysInjective(1, k);
      IndexedKeyIsNew(k);
    }
  }

  lemma IndexedPartOk(src: Source, n: int)
    requires n > 1
    ensures IndexedPart(src, n).Ok? <==>
      ListReadable(src, "outpsf_extra", n) && ListReadable(src, "sigmatarget_extra", n)
    ensures IndexedPart(src, n).Ok? ==>
      IndexedPart(src, n).value.Keys == IndexedKeys(n) &&
      forall i :: 1 <= i <= n ==>
        OutPsfKey(i + 1) in IndexedPart(src, n).value &&
        IndexedPart(src, n).value[OutPsfKey(i + 1)] == ListItems(src, "outpsf_extra")[i] &&
        ExtraSmoothKey(i + 1) in IndexedPart(src, n).value &&
        IndexedPart(src, n).value[ExtraSmoothKey(i + 1)] == ListItems(src, "sigmatarget_extra")[i]
  {
    if IndexedPart(src, n).Ok? {
      var psfs, sigmas := ListItems(src, "outpsf_extra"), ListItems(src, "sigmatarget_extra");
      IndexedEntriesKeys(psfs, sigmas, n);
      forall i | 1 <= i <= n
        ensures OutPsfKey(i + 1) in IndexedEntries(psfs, sigmas, n)
        ensures IndexedEntries(psfs, sigmas, n)[OutPsfKey(i + 1)] == psfs[i]
        ensures ExtraSmoothKey(i + 1) in IndexedEntries(psfs, sigmas, n)
        ensures IndexedEntries(psfs, sigmas, n)[ExtraSmoothKey(i + 1)] == sigmas[i]
      {
        IndexedEntriesAt(psfs, sigmas, n, i);
      }
    }
  }

  // ---- the fixed part ----

  lemma FixedPartOfFixedFields(src: Source)
    requires FixedPart(src, FixedFields).Ok?
    ensures FixedPart(src, FixedFields).value.Keys == Targets(FixedFields)
    ensures forall j :: 0 <= j < |FixedFields| ==>
      FixedPart(src, FixedFields).value[FixedFields[j].target] == src[FixedFields[j].source]
  {
    FixedTargetsDistinct();
    forall j | 0 <= j < |FixedFields|
      ensures FixedPart(src, FixedFields).value[FixedFields[j].target] == src[FixedFields[j].source]
    {
      FixedPartValue(src, FixedFields, j);
    }
  }

  /** The indexed stage adds the indexed keys for ExtraOutputs, each holding
      item `i` of its list. */
  lemma IndexedStageEntries(src: Source)
    requires "n_out" in src && IndexedStage(src).Ok?
    ensures IndexedStage(src).value.Keys == IndexedKeys(ExtraOutputs(src))
    ensures ExtraOutputs(src) > 1 ==>
      ListReadable(src, "outpsf_extra", ExtraOutputs(src)) &&
      ListReadable(src, "sigmatarget_extra", ExtraOutputs(src)) &&
      forall i :: 1 <= i <= ExtraOutputs(src) ==>
        OutPsfKey(i + 1) in IndexedStage(src).value &&
        IndexedStage(src).value[OutPsfKey(i + 1)] == ListItems(src, "outpsf_extra")[i] &&
        ExtraSmoothKey(i + 1) in IndexedStage(src).value &&
        IndexedStage(src).value[ExtraSmoothKey(i + 1)] == ListItems(src, "sigmatarget_extra")[i]
  {
    var v := src["n_out"];
    if v.IntV? && v.i > 1 {
      IndexedPartOk(src, v.i);
    } else {
      assert IndexedKeys(0) == {};
    }
  }

  /** The mode part adds ITERRTOL and ITERMAX for "Iterative", EMPIRNQC for
      "Empirical", and nothing for any other selector. */
  lemma ModePartEntries(src: Source)
    requires ModePart(src).Ok?
    ensures ModePart(src).value.Keys == ModeKeys(src)
    ensures "ITERRTOL" in ModePart(src).value ==> ModePart(src).value["ITERRTOL"] == src["iter_rtol"]
    ensures "ITERMAX" in ModePart(src).value ==> ModePart(src).value["ITERMAX"] == src["iter_max"]
    ensures "EMPIRNQC" in ModePart(src).value ==> ModePart(src).value["EMPIRNQC"] == src["no_qlt_ctrl"]
  {
  }

  /** A successful translation is the union of its three parts. */
  lemma TranslateParts(src: Source)
    requires Translate(src).Ok?
    ensures FixedPart(src, FixedFields).Ok? && "n_out" in src
    ensures IndexedStage(src).Ok? && ModePart(src).Ok?
    ensures Translate(src).value ==
      FixedPart(src, FixedFields).value + IndexedStage(src).value + ModePart(src).value
  {
    NOutIsRead(src);
  }

  // ---- the whole translation ----

  /** The translation succeeds exactly when every field it reads is present
      and usable: `n_out` comparable with 1, both extra lists longer than
      `n_out` when `n_out > 1`, and the fields of the selected mode present. */
  lemma TranslateSucceedsIff(src: Source)
    ensures Translate(src).Ok? <==> Readable(src)
  {
    if FixedPart(src, FixedFields).Ok? {
      NOutIsRead(src);
      var v := src["n_out"];
      if v.IntV? && v.i > 1 {
        IndexedPartOk(src, v.i);
      }
    }
  }

  /** The dictionary holds the fixed keys, the indexed keys when `n_out > 1`
      and the keys of the selected linear-algebra mode, and nothing else. */
  lemma TranslateKeys(src: Source)
    requires Translate(src).Ok?
    ensures Translate(src).value.Keys ==
      Targets(FixedFields) + IndexedKeys(ExtraOutputs(src)) + ModeKeys(src)
  {
    TranslateParts(src);
    IndexedStageEntries(src);
    ModePartEntries(src);
  }

  /** Neither the indexed nor the linear-algebra insertions overwrite an entry
      of the fixed part. */
  lemma FixedEntriesSurvive(src: Source)
    requires Translate(src).Ok?
    ensures FixedPart(src, FixedFields).Ok?
    ensures forall t :: t in Targets(FixedFields) ==>
      t in Translate(src).value && Translate(src).value[t] == FixedPart(src, FixedFields).value[t]
  {
    TranslateParts(src);
    var fixed, extra, mode := FixedPart(src, FixedFields).value, IndexedStage(src).value, ModePart(src).value;
    assert extra.Keys !! Targets(FixedFields) by {
      IndexedStageEntries(src);
      IndexedKeysAreNew(ExtraOutputs(src));
    }
    assert mode.Keys !! Targets(FixedFields) by {
      ModePartEntries(src);
      FixedTargetsExclude();
    }
    assert fixed.Keys == Targets(FixedFields);
  }

  /** Each of the 42 fixed keys holds its own source field's value: no later
      insertion overwrites it. */
  lemma TranslateFixedValues(src: Source)
    requires Translate(src).Ok?
    ensures |FixedFields| == 42
    ensures forall j :: 0 <= j < |FixedFields| ==>
      FixedFields[j].target in Translate(src).value &&
      Translate(src).value[FixedFields[j].target] == src[FixedFields[j].source]
  {
    FixedTargetsDistinct();
    FixedPartOfFixedFields(src);
    FixedEntriesSurvive(src);
  }

  /** The linear-algebra insertion does not overwrite an indexed entry. */
  lemma IndexedEntriesSurvive(src: Source)
    requires Translate(src).Ok?
    ensures "n_out" in src && IndexedStage(src).Ok?
    ensures forall t :: t in IndexedStage(src).value ==>
      t in Translate(src).value && Translate(src).value[t] == IndexedStage(src).value[t]
  {
    TranslateParts(src);
    var extra, mode := IndexedStage(src).value, ModePart(src).value;
    assert extra.Keys !! mode.Keys by {
      IndexedStageEntries(src);
      ModePartEntries(src);
      IndexedKeysAreNew(ExtraOutputs(src));
    }
  }

  /** For `n_out > 1`, `OUTPSF{i+1}` and `EXTRASMOOTH{i+1}` hold items `i` of
      `outpsf_extra` and `sigmatarget_extra` for every `i` in `1..n_out`, and
      both lists are longer than `n_out`. */
  lemma TranslateIndexedValues(src: Source)
    requires Translate(src).Ok? && ExtraOutputs(src) > 1
    ensures ListReadable(src, "outpsf_extra", ExtraOutputs(src))
    ensures ListReadable(src, "sigmatarget_extra", ExtraOutputs(src))
    ensures forall i :: 1 <= i <= ExtraOutputs(src) ==>
      OutPsfKey(i + 1) in Translate(src).value &&
      Translate(src).value[OutPsfKey(i + 1)] == ListItems(src, "outpsf_extra")[i] &&
      ExtraSmoothKey(i + 1) in Translate(src).value &&
      Translate(src).value[ExtraSmoothKey(i + 1)] == ListItems(src, "sigmatarget_extra")[i]
  {
    IndexedEntriesSurvive(src);
    IndexedStageEntries(src);
  }

  /** ITERRTOL and ITERMAX are present exactly for the "Iterative" selector and
      EMPIRNQC exactly for "Empirical", with their source values; the two
      groups never appear together. */
  lemma TranslateModeEntries(src: Source)
    requires Translate(src).Ok?
    ensures "ITERRTOL" in Translate(src).value <==> src["linear_algebra"] == StrV("Iterative")
    ensures "ITERMAX" in Translate(src).value <==> src["linear_algebra"] == StrV("Iterative")
    ensures "EMPIRNQC" in Translate(src).value <==> src["linear_algebra"] == StrV("Empirical")
    ensures !("ITERRTOL" in Translate(src).value && "EMPIRNQC" in Translate(src).value)
    ensures "ITERRTOL" in Translate(src).value ==>
      Translate(src).value["ITERRTOL"] == src["iter_rtol"] && Translate(src).value["ITERMAX"] == src["iter_max"]
    ensures "EMPIRNQC" in Translate(src).value ==> Translate(src).value["EMPIRNQC"] == src["no_qlt_ctrl"]
  {
    TranslateParts(src);
    var fixed, extra, mode := FixedPart(src, FixedFields).value, IndexedStage(src).value, ModePart(src).value;
    ModePartEntries(src);
    assert (fixed + extra).Keys !! IterativeKeys + EmpiricalKeys by {
      IndexedStageEntries(src);
      IndexedKeysAreNew(ExtraOutputs(src));
      FixedTargetsExclude();
    }
  }

  /** The disabled keys PMASK, CMASK and LABNOISETHRESHOLD never appear, and
      neither do OUTPSF1 and EXTRASMOOTH1. */
  lemma TranslateOmits(src: Source)
    requires Translate(src).Ok?
    ensures Translate(src).value.Keys !! DisabledKeys
    ensures OutPsfKey(1) !in Translate(src).value && ExtraSmoothKey(1) !in Translate(src).value
  {
    TranslateParts(src);
    FixedPartOmits(src);
    IndexedStageOmits(src);
    ModePartOmits(src);
  }

  lemma FixedPartOmits(src: Source)
    requires FixedPart(src, FixedFields).Ok?
    ensures FixedPart(src, FixedFields).value.Keys !! DisabledKeys
    ensures OutPsfKey(1) !in FixedPart(src, FixedFields).value
    ensures ExtraSmoothKey(1) !in FixedPart(src, FixedFields).value
  {
    FixedTargetsExclude();
    IndexedKeyIsNew(1);
  }

  lemma IndexedStageOmits(src: Source)
    requires "n_out" in src && IndexedStage(src).Ok?
    ensures IndexedStage(src).value.Keys !! DisabledKeys
    ensures OutPsfKey(1) !in IndexedStage(src).value && ExtraSmoothKey(1) !in IndexedStage(src).value
  {
    IndexedStageEntries(src);
    IndexedKeysAreNew(ExtraOutputs(src));
  }

  lemma ModePartOmits(src: Source)
    requires ModePart(src).Ok?
    ensures ModePart(src).value.Keys !! DisabledKeys
    ensures OutPsfKey(1) !in ModePart(src).value && ExtraSmoothKey(1) !in ModePart(src).value
  {
    ModePartEntries(src);
    IndexedKeyIsNew(1);
  }

  /** The two extra list fields, whose items the indexed part reads. */
  const ListFields: set<string> := {"outpsf_extra", "sigmatarget_extra"}

  /** Sources equal on every field except, possibly, `fields`. */
  ghost predicate AgreeExcept(src: Source, src': Source, fields: set<string>)
  {
    forall f :: f !in fields ==> (f in src <==> f in src') && (f in src ==> src[f] == src'[f])
  }

  /** The fixed part reads nothing but its source fields. */
  lemma {:induction false} FixedPartReadsOnlySources(src: Source, src': Source, fields: seq<Rename>, skip: set<string>)
    requires AgreeExcept(src, src', skip)
    requires forall j :: 0 <= j < |fields| ==> fields[j].source !in skip
    ensures FixedPart(src, fields) == FixedPart(src', fields)
    decreases |fields|
  {
    if |fields| > 0 {
      var front := fields[..|fields| - 1];
      assert forall j :: 0 <= j < |front| ==> front[j] == fields[j];
      FixedPartReadsOnlySources(src, src', front, skip);
    }
  }

  lemma FixedSourcesAreNotLists()
    ensures forall j :: 0 <= j < |FixedFields| ==>
      FixedFields[j].source != "outpsf_extra" && FixedFields[j].source != "sigmatarget_extra"
  {
  }

  /** The mode stage and `n_out` agree for sources that differ only in the two
      extra lists. */
  lemma OtherPartsIgnoreLists(src: Source, src': Source)
    requires AgreeExcept(src, src', ListFields)
    ensures ModePart(src) == ModePart(src')
    ensures ("n_out" in src <==> "n_out" in src') && ("n_out" in src ==> src["n_out"] == src'["n_out"])
  {
  }

  lemma FixedPartIgnoresLists(src: Source, src': Source)
    requires AgreeExcept(src, src', ListFields)
    ensures FixedPart(src, FixedFields) == FixedPart(src', FixedFields)
  {
    FixedSourcesAreNotLists();
    FixedPartReadsOnlySources(src, src', FixedFields, ListFields);
  }

  /** When `n_out` is not an int greater than 1, `outpsf_extra` and
      `sigmatarget_extra` are never consulted: changing or removing them does
      not change the outcome. */
  lemma ExtrasIgnoredForSingleOutput(src: Source, src': Source)
    requires AgreeExcept(src, src', ListFields)
    requires ExtraOutputs(src) == 0
    ensures Translate(src) == Translate(src')
  {
    OtherPartsIgnoreLists(src, src');
    FixedPartIgnoresLists(src, src');
    if FixedPart(src, FixedFields).Ok? {
      NOutIsRead(src);
      assert IndexedStage(src) == IndexedStage(src');
    }
  }

  /** `v` and `w` differ at most in their item 0. */
  predicate SameFromIndexOne(v: Value, w: Value)
  {
    v == w ||
    (Items(v).Some? && Items(w).Some? && |Items(v).value| == |Items(w).value| &&
     forall i :: 1 <= i < |Items(v).value| ==> Items(v).value[i] == Items(w).value[i])
  }

  lemma {:induction false} IndexedEntriesSkipItemZero(psfs: seq<Value>, sigmas: seq<Value>,
                                                      psfs': seq<Value>, sigmas': seq<Value>, n: nat)
    requires n < |psfs| && n < |sigmas| && n < |psfs'| && n < |sigmas'|
    requires forall i :: 1 <= i <= n ==> psfs[i] == psfs'[i] && sigmas[i] == sigmas'[i]
    ensures IndexedEntries(psfs, sigmas, n) == IndexedEntries(psfs', sigmas', n)
  {
    if n > 0 {
      IndexedEntriesSkipItemZero(psfs, sigmas, psfs', sigmas', n - 1);
    }
  }

  /** The indexed part reads no item 0. */
  lemma IndexedPartSkipsItemZero(src: Source, src': Source, n: int)
    requires n > 1
    requires "outpsf_extra" in src <==> "outpsf_extra" in src'
    requires "outpsf_extra" in src ==> SameFromIndexOne(src["outpsf_extra"], src'["outpsf_extra"])
    requires "sigmatarget_extra" in src <==> "sigmatarget_extra" in src'
    requires "sigmatarget_extra" in src ==> SameFromIndexOne(src["sigmatarget_extra"], src'["sigmatarget_extra"])
    ensures IndexedPart(src, n) == IndexedPart(src', n)
  {
    if IndexedPart(src, n).Ok? {
      IndexedEntriesSkipItemZero(ListItems(src, "outpsf_extra"), ListItems(src, "sigmatarget_extra"),
                                 ListItems(src', "outpsf_extra"), ListItems(src', "sigmatarget_extra"), n);
    }
  }

  /** Item 0 of `outpsf_extra` and `sigmatarget_extra` is never read: sources
      that differ only there translate alike. */
  lemma IndexZeroNeverRead(src: Source, src': Source)
    requires AgreeExcept(src, src', ListFields)
    requires "outpsf_extra" in src <==> "outpsf_extra" in src'
    requires "outpsf_extra" in src ==> SameFromIndexOne(src["outpsf_extra"], src'["outpsf_extra"])
    requires "sigmatarget_extra" in src <==> "sigmatarget_extra" in src'
    requires "sigmatarget_extra" in src ==> SameFromIndexOne(src["sigmatarget_extra"], src'["sigmatarget_extra"])
    ensures Translate(src) == Translate(src')
  {
    OtherPartsIgnoreLists(src, src');
    FixedPartIgnoresLists(src, src');
    if FixedPart(src, FixedFields).Ok? {
      NOutIsRead(src);
      var v := src["n_out"];
      if v.IntV? && v.i > 1 {
        IndexedPartSkipsItemZero(src, src', v.i);
      }
      assert IndexedStage(src) == IndexedStage(src');
    }
  }

  /** A missing fixed field makes the translation raise KeyError for the first
      such field in the order of the dictionary display. */
  lemma TranslateMissingFixedField(src: Source, j: int)
    requires FirstMissing(src, FixedFields, j)
    ensures Translate(src) == Err(KeyError(FixedFields[j].source))
  {
  }

  /** Every error names a field that really fails: a KeyError a missing field,
      an IndexError a list field too short for its index, a TypeError a field
      whose value does not support the operation. */
  lemma TranslateErrorsAreGenuine(src: Source)
    requires Translate(src).Err?
    ensures Translate(src).error.KeyError? ==> Translate(src).error.key !in src
    ensures Translate(src).error.IndexError? ==>
      var f, i := Translate(src).error.field, Translate(src).error.index;
      f in src && Items(src[f]).Some? && 1 <= i && |Items(src[f]).value| <= i
    ensures Translate(src).error.TypeError? ==>
      var f := Translate(src).error.field;
      f in src && (f == "n_out" || Items(src[f]).None?)
  {
    var fixed := FixedPart(src, FixedFields);
    if fixed.Ok? {
      NOutIsRead(src);
    }
  }
}
