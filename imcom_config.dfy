/** `make_imcom_config`: the translation of the pipeline's YAML configuration
    into the key/value dictionary that pyimcom's `Config` is built from. */
module ImcomConfig {
  import opened PyValues
  import opened DecimalText
  import opened ImcomKeys

  /** The pyimcom-style configuration dictionary, before it is serialised. */
  type ConfigDict = map<string, Value>

  /** Field `j` is the first of `fields` whose source is missing from `src`. */
  predicate FirstMissing(src: Source, fields: seq<Rename>, j: int)
  {
    && 0 <= j < |fields|
    && fields[j].source !in src
    && forall i :: 0 <= i < j ==> fields[i].source in src
  }

  /** The fixed dictionary display: each renaming is evaluated in turn, and
      the first source field that is missing raises KeyError. */
  function FixedPart(src: Source, fields: seq<Rename>): (r: Result<ConfigDict>)
    ensures r.Ok? <==> forall j :: 0 <= j < |fields| ==> fields[j].source in src
    ensures r.Ok? ==> r.value.Keys == Targets(fields)
    ensures r.Err? ==> exists j :: FirstMissing(src, fields, j) && r.error == KeyError(fields[j].source)
    decreases |fields|
  {
    if |fields| == 0 then Ok(map[])
    else
      var front, last := fields[..|fields| - 1], fields[|fields| - 1];
      assert forall j :: 0 <= j < |front| ==> front[j] == fields[j];
      match FixedPart(src, front)
      case Err(e) => Err(e)
      case Ok(m) =>
        if last.source in src then
          assert Targets(fields) == Targets(front) + {last.target};
          Ok(m[last.target := src[last.source]])
        else
          assert FirstMissing(src, fields, |fields| - 1);
          Err(KeyError(last.source))
  }

  /** As in a Python dictionary display, an entry's key holds its value unless
      a later entry writes the same key. */
  lemma {:induction false} FixedPartValue(src: Source, fields: seq<Rename>, j: int)
    requires FixedPart(src, fields).Ok? && 0 <= j < |fields|
    requires forall b :: j < b < |fields| ==> fields[b].target != fields[j].target
    ensures FixedPart(src, fields).value[fields[j].target] == src[fields[j].source]
    decreases |fields|
  {
    var front, last := fields[..|fields| - 1], fields[|fields| - 1];
    assert forall b :: 0 <= b < |front| ==> front[b] == fields[b];
    var m := FixedPart(src, front).value;
    assert FixedPart(src, fields).value == m[last.target := src[last.source]];
    if j < |front| {
      FixedPartValue(src, front, j);
    }
  }

  /** `n_out` is one of the fields the fixed part reads. */
  lemma NOutIsRead(src: Source)
    requires forall j :: 0 <= j < |FixedFields| ==> FixedFields[j].source in src
    ensures "n_out" in src
  {
    assert FixedFields[NOutIndex].source == "n_out";
  }

  /** The first loop index `i >= 1` at which `config_yaml[field][i]` raises. */
  function FirstBadIndex(src: Source, field: string): (i: nat)
    ensures i >= 1
  {
    if field in src && Items(src[field]).Some? && |Items(src[field]).value| > 1
    then |Items(src[field]).value|
    else 1
  }

  /** The exception that `config_yaml[field][i]` raises at its first bad index `i`. */
  function ReadError(src: Source, field: string, i: nat): Error
  {
    if field !in src then KeyError(field)
    else if Items(src[field]).None? then TypeError(field)
    else IndexError(field, i)
  }

  /** The items of a list field that FirstBadIndex reports usable. */
  function ListItems(src: Source, field: string): seq<Value>
    requires FirstBadIndex(src, field) > 1
  {
    Items(src[field]).value
  }

  /** The entries `OUTPSF{i+1}` and `EXTRASMOOTH{i+1}` for `i` in `1..n`. */
  function IndexedEntries(psfs: seq<Value>, sigmas: seq<Value>, n: nat): ConfigDict
    requires n < |psfs| && n < |sigmas|
  {
    if n == 0 then map[]
    else IndexedEntries(psfs, sigmas, n - 1)[OutPsfKey(n + 1) := psfs[n]][ExtraSmoothKey(n + 1) := sigmas[n]]
  }

  /** The keys `OUTPSF{i+1}` and `EXTRASMOOTH{i+1}` for `i` in `1..n`. */
  function IndexedKeys(n: nat): set<string>
  {
    (set k: nat | 2 <= k <= n + 1 :: OutPsfKey(k)) + (set k: nat | 2 <= k <= n + 1 :: ExtraSmoothKey(k))
  }

  /** The indexed output-PSF part for `n_out == n > 1`: the loop stops at the
      first index where either list read fails, the PSF list being read
      first within an iteration. */
  function IndexedPart(src: Source, n: int): Result<ConfigDict>
    requires n > 1
  {
    var badPsf := FirstBadIndex(src, "outpsf_extra");
    var badSigma := FirstBadIndex(src, "sigmatarget_extra");
    if badPsf <= n && badPsf <= badSigma then Err(ReadError(src, "outpsf_extra", badPsf))
    else if badSigma <= n then Err(ReadError(src, "sigmatarget_extra", badSigma))
    else Ok(IndexedEntries(ListItems(src, "outpsf_extra"), ListItems(src, "sigmatarget_extra"), n))
  }

  /** The linear-algebra part, gated on the `linear_algebra` selector. */
  function ModePart(src: Source): Result<ConfigDict>
  {
    if "linear_algebra" !in src then Err(KeyError("linear_algebra"))
    else if src["linear_algebra"] == StrV("Iterative") then
      if "iter_rtol" !in src then Err(KeyError("iter_rtol"))
      else if "iter_max" !in src then Err(KeyError("iter_max"))
      else Ok(map["ITERRTOL" := src["iter_rtol"], "ITERMAX" := src["iter_max"]])
    else if src["linear_algebra"] == StrV("Empirical") then
      if "no_qlt_ctrl" !in src then Err(KeyError("no_qlt_ctrl"))
      else Ok(map["EMPIRNQC" := src["no_qlt_ctrl"]])
    else Ok(map[])
  }

  /** Inserting the entries of a later part over the dictionary built so far. */
  function Over(d: ConfigDict, part: Result<ConfigDict>): Result<ConfigDict>
  {
    match part
    case Err(e) => Err(e)
    case Ok(entries) => Ok(d + entries)
  }

  /** The indexed part as the translation reaches it: `n_out > 1` is tested
      first, and `range(n_out + 1)` needs an int. */
  function IndexedStage(src: Source): Result<ConfigDict>
    requires "n_out" in src
  {
    match GreaterThanOne("n_out", src["n_out"])
    case Err(e) => Err(e)
    case Ok(multi) =>
      if !multi then Ok(map[])
      else if !src["n_out"].IntV? then Err(TypeError("n_out"))  // range() of a float
      else IndexedPart(src, src["n_out"].i)
  }

  /** The whole translation, up to the hand-over to pyimcom: the fixed part,
      then the indexed part, then the linear-algebra part, each later part
      inserted over the earlier ones; the first failing read decides the error. */
  function Translate(src: Source): Result<ConfigDict>
  {
    match FixedPart(src, FixedFields)
    case Err(e) => Err(e)
    case Ok(fixed) =>
      NOutIsRead(src);
      match IndexedStage(src)
      case Err(e) => Err(e)
      case Ok(extra) =>
        match ModePart(src)
        case Err(e) => Err(e)
        case Ok(mode) => Ok(fixed + extra + mode)
  }

  /** The `for` loop of `make_imcom_config` for `n_out == n > 1`: inserts
      `OUTPSF{i+1}` and `EXTRASMOOTH{i+1}` into `configDict` for `i` in `1..n`. */
  method InsertIndexed(src: Source, n: int, configDict: ConfigDict) returns (r: Result<ConfigDict>)
    requires n > 1
    ensures r == Over(configDict, IndexedPart(src, n))
  {
    var d := configDict;
    for i := 0 to n + 1
      invariant i <= FirstBadIndex(src, "outpsf_extra") && i <= FirstBadIndex(src, "sigmatarget_extra")
      invariant d == configDict + if i <= 1 then map[]
        else IndexedEntries(ListItems(src, "outpsf_extra"), ListItems(src, "sigmatarget_extra"), i - 1)
    {
      if i == 0 {
        continue;
      }
      if "outpsf_extra" !in src {
        return Err(KeyError("outpsf_extra"));
      }
      var psf := Subscript("outpsf_extra", src["outpsf_extra"], i);
      if psf.Err? {
        return Err(psf.error);
      }
      d := d[OutPsfKey(i + 1) := psf.value];
      if "sigmatarget_extra" !in src {
        return Err(KeyError("sigmatarget_extra"));
      }
      var sigma := Subscript("sigmatarget_extra", src["sigmatarget_extra"], i);
      if sigma.Err? {
        return Err(sigma.error);
      }
      d := d[ExtraSmoothKey(i + 1) := sigma.value];
      ghost var psfs, sigmas := ListItems(src, "outpsf_extra"), ListItems(src, "sigmatarget_extra");
      assert IndexedEntries(psfs, sigmas, i)
        == IndexedEntries(psfs, sigmas, i - 1)[OutPsfKey(i + 1) := psf.value][ExtraSmoothKey(i + 1) := sigma.value];
    }
    return Ok(d);
  }

  /** The `if`/`elif` of `make_imcom_config` on `linear_algebra`. */
  method InsertMode(src: Source, configDict: ConfigDict) returns (r: Result<ConfigDict>)
    ensures r == Over(configDict, ModePart(src))
  {
    if "linear_algebra" !in src {
      return Err(KeyError("linear_algebra"));
    }
    var d := configDict;
    if src["linear_algebra"] == StrV("Iterative") {
      if "iter_rtol" !in src {
        return Err(KeyError("iter_rtol"));
      }
      d := d["ITERRTOL" := src["iter_rtol"]];
      if "iter_max" !in src {
        return Err(KeyError("iter_max"));
      }
      d := d["ITERMAX" := src["iter_max"]];
      assert d == configDict + map["ITERRTOL" := src["iter_rtol"], "ITERMAX" := src["iter_max"]];
    } else if src["linear_algebra"] == StrV("Empirical") {
      if "no_qlt_ctrl" !in src {
        return Err(KeyError("no_qlt_ctrl"));
      }
      d := d["EMPIRNQC" := src["no_qlt_ctrl"]];
      assert d == configDict + map["EMPIRNQC" := src["no_qlt_ctrl"]];
    } else {
      assert d == configDict + map[];
    }
    return Ok(d);
  }

  /** `make_imcom_config` up to the construction of the pyimcom object. */
  method MakeImcomConfig(src: Source) returns (r: Result<ConfigDict>)
    ensures r == Translate(src)
  {
    var fixedPart := FixedPart(src, FixedFields);
    if fixedPart.Err? {
      return Err(fixedPart.error);
    }
    var configDict := fixedPart.value;
    NOutIsRead(src);
    var multi := GreaterThanOne("n_out", src["n_out"]);
    if multi.Err? {
      return Err(multi.error);
    }
    if multi.value {
      if !src["n_out"].IntV? {
        return Err(TypeError("n_out"));
      }
      var withIndexed := InsertIndexed(src, src["n_out"].i, configDict);
      if withIndexed.Err? {
        return withIndexed;
      }
      configDict := withIndexed.value;
    } else {
      assert configDict == configDict + map[];
    }
    assert configDict == fixedPart.value + IndexedStage(src).value;
    r := InsertMode(src, configDict);
  }
}
