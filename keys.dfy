/** The keys of the pyimcom-style configuration that `make_imcom_config`
    writes: the fixed renamings, the indexed output-PSF keys and the
    linear-algebra keys. */
module ImcomKeys {
  import opened DecimalText

  /** One entry of the fixed dictionary display: `target` is written with the
      value of the source field `source`. */
  datatype Rename = Rename(target: string, source: string)

  /** The fixed renamings, in the order the dictionary display reads them. */
  const FixedFields: seq<Rename> := [
    // Section I: input files
    Rename("OBSFILE", "obs_file"),
    Rename("INDATA", "indata"),
    Rename("FILTER", "filter"),
    Rename("INPSF", "in_psf"),
    Rename("PSFSPLIT", "psf_split"),
    // Section II: masks and layers (PMASK, CMASK and LABNOISETHRESHOLD are disabled)
    Rename("EXTRAINPUT", "extra_input"),
    // Section III: area to coadd
    Rename("CTR", "ctr"),
    Rename("LONPOLE", "lonpole"),
    Rename("BLOCK", "block"),
    Rename("OUTSIZE", "outsize"),
    // Section IV: postage stamp parameters
    Rename("FADE", "fade"),
    Rename("PAD", "pad"),
    Rename("PADSIDES", "padsides"),
    Rename("STOP", "stop"),
    // Section V: output settings
    Rename("OUTMAPS", "outmaps"),
    Rename("OUT", "out"),
    Rename("TEMPFILE", "tempfile"),
    Rename("INLAYERCACHE", "inlayer_cache"),
    // Section VI: target output PSF
    Rename("NOUT", "n_out"),
    Rename("OUTPSF", "out_psf"),
    Rename("EXTRASMOOTH", "extra_smooth"),
    // Section VII: building linear systems
    Rename("NPIXPSF", "n_pix_psf"),
    Rename("PSFCIRC", "psf_circ"),
    Rename("PSFNORM", "psf_norm"),
    Rename("AMPPENALTY", "amp_penalty"),
    Rename("FLATPEN", "flat_penalty"),
    Rename("PSFINTERP", "psf_interp"),
    Rename("INPAD", "inpad"),
    // Section VIII: solving linear systems
    Rename("LAKERNEL", "lakernel"),
    // Section IX: destriping parameters
    Rename("DSMODEL", "ds_model"),
    Rename("DSOUT", "ds_outputs"),
    Rename("CGMODEL", "cg_model"),
    Rename("DSCOST", "ds_cost"),
    Rename("DSOBSFILE", "ds_obsfile"),
    Rename("DSRESTART", "ds_restart"),
    Rename("GAINDIR", "gain_dir"),
    Rename("KAPPAC", "kappac"),
    Rename("UCMIN", "ucmin"),
    Rename("SMAX", "smax"),
    Rename("TILESCHM", "tileschm"),
    Rename("RERUN", "rerun"),
    Rename("MOSAICID", "mosaic")
  ]

  /** The index of the `n_out` renaming in FixedFields. */
  const NOutIndex := 18

  /** The keys that the disabled lines of the dictionary display would have written. */
  const DisabledKeys: set<string> := {"PMASK", "CMASK", "LABNOISETHRESHOLD"}

  /** The keys added for the "Iterative" and "Empirical" linear-algebra modes. */
  const IterativeKeys: set<string> := {"ITERRTOL", "ITERMAX"}
  const EmpiricalKeys: set<string> := {"EMPIRNQC"}

  function Targets(fields: seq<Rename>): set<string>
  {
    set j | 0 <= j < |fields| :: fields[j].target
  }

  predicate DistinctTargets(fields: seq<Rename>)
  {
    forall a, b :: 0 <= a < b < |fields| ==> fields[a].target != fields[b].target
  }

  predicate EndsInDigit(s: string)
  {
    |s| > 0 && IsDigit(s[|s| - 1])
  }

  /** `f"OUTPSF{k}"` */
  function OutPsfKey(k: nat): string
  {
    "OUTPSF" + Decimal(k)
  }

  /** `f"EXTRASMOOTH{k}"` */
  function ExtraSmoothKey(k: nat): string
  {
    "EXTRASMOOTH" + Decimal(k)
  }

  /** For `n_out = 2` the loop writes OUTPSF2, EXTRASMOOTH2, OUTPSF3 and
      EXTRASMOOTH3; two-digit suffixes are written out in full. */
  lemma IndexedKeyExamples()
    ensures OutPsfKey(2) == "OUTPSF2" && ExtraSmoothKey(2) == "EXTRASMOOTH2"
    ensures OutPsfKey(3) == "OUTPSF3" && ExtraSmoothKey(3) == "EXTRASMOOTH3"
    ensures OutPsfKey(10) == "OUTPSF10"
  {
  }

  // The pairwise distinctness of the 42 fixed keys, proved for a few entries at a time.

  lemma DistinctKeys0To14()
    ensures forall a, b :: 0 <= a < b < 14 ==> FixedFields[a].target != FixedFields[b].target
  {
  }

  lemma DistinctKeys14To21()
    ensures forall a, b :: 0 <= a < b && 14 <= b < 21 ==> FixedFields[a].target != FixedFields[b].target
  {
  }

  lemma DistinctKeys21To26()
    ensures forall a, b :: 0 <= a < b && 21 <= b < 26 ==> FixedFields[a].target != FixedFields[b].target
  {
  }

  lemma DistinctKeys26To31()
    ensures forall a, b :: 0 <= a < b && 26 <= b < 31 ==> FixedFields[a].target != FixedFields[b].target
  {
  }

  lemma DistinctKeys31To35()
    ensures forall a, b :: 0 <= a < b && 31 <= b < 35 ==> FixedFields[a].target != FixedFields[b].target
  {
  }

  lemma DistinctKeys35To39()
    ensures forall a, b :: 0 <= a < b && 35 <= b < 39 ==> FixedFields[a].target != FixedFields[b].target
  {
  }

  lemma DistinctKeys39To42()
    ensures forall a, b :: 0 <= a < b && 39 <= b < 42 ==> FixedFields[a].target != FixedFields[b].target
  {
  }

  /** No two fixed entries write the same key, so none overwrites another. */
  lemma FixedTargetsDistinct()
    ensures |FixedFields| == 42
    ensures DistinctTargets(FixedFields)
  {
    DistinctKeys0To14();
    DistinctKeys14To21();
    DistinctKeys21To26();
    DistinctKeys26To31();
    DistinctKeys31To35();
    DistinctKeys35To39();
    DistinctKeys39To42();
  }

  /** No fixed key ends in a digit. */
  lemma FixedTargetsEndInLetters()
    ensures forall j :: 0 <= j < |FixedFields| ==> !EndsInDigit(FixedFields[j].target)
  {
  }

  /** No disabled or linear-algebra key ends in a digit. */
  lemma OtherKeysEndInLetters()
    ensures forall t :: t in DisabledKeys + IterativeKeys + EmpiricalKeys ==> !EndsInDigit(t)
  {
  }

  /** The fixed keys are distinct from the disabled and the linear-algebra keys. */
  lemma FixedTargetsExclude()
    ensures Targets(FixedFields) !! DisabledKeys + IterativeKeys + EmpiricalKeys
  {
    assert forall j :: 0 <= j < |FixedFields| ==>
      FixedFields[j].target !in DisabledKeys + IterativeKeys + EmpiricalKeys;
  }

  lemma IndexedKeyEndsInDigit(k: nat)
    ensures EndsInDigit(OutPsfKey(k)) && EndsInDigit(ExtraSmoothKey(k))
  {
    var d := Decimal(k);
    assert OutPsfKey(k)[|OutPsfKey(k)| - 1] == d[|d| - 1];
    assert ExtraSmoothKey(k)[|ExtraSmoothKey(k)| - 1] == d[|d| - 1];
  }

  /** An indexed key is never one of the fixed, disabled or linear-algebra keys. */
  lemma IndexedKeyIsNew(k: nat)
    ensures OutPsfKey(k) !in Targets(FixedFields) && ExtraSmoothKey(k) !in Targets(FixedFields)
    ensures OutPsfKey(k) !in DisabledKeys + IterativeKeys + EmpiricalKeys
    ensures ExtraSmoothKey(k) !in DisabledKeys + IterativeKeys + EmpiricalKeys
  {
    IndexedKeyEndsInDigit(k);
    FixedTargetsEndInLetters();
    OtherKeysEndInLetters();
  }

  /** `f"OUTPSF{a}"` and `f"EXTRASMOOTH{b}"` never coincide, and each determines its index. */
  lemma IndexedKeysInjective(a: nat, b: nat)
    ensures OutPsfKey(a) != ExtraSmoothKey(b)
    ensures OutPsfKey(a) == OutPsfKey(b) ==> a == b
    ensures ExtraSmoothKey(a) == ExtraSmoothKey(b) ==> a == b
  {
    assert OutPsfKey(a)[0] == 'O' && ExtraSmoothKey(b)[0] == 'E';
    if OutPsfKey(a) == OutPsfKey(b) {
      assert Decimal(a) == OutPsfKey(a)[6..] && Decimal(b) == OutPsfKey(b)[6..];
      DecimalInjective(a, b);
    }
    if ExtraSmoothKey(a) == ExtraSmoothKey(b) {
      assert Decimal(a) == ExtraSmoothKey(a)[11..] && Decimal(b) == ExtraSmoothKey(b)[11..];
      DecimalInjective(a, b);
    }
  }
}
