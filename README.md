# imcom-pipeline configuration translation, in Dafny

This project models `src/imcom_pipeline/utils/configutils.py` of the
imcom-pipeline repository. That file holds the two functions that carry the
pipeline's own logic:

- `make_imcom_config` turns the pipeline's ceci-style YAML configuration into
  the key/value dictionary that pyimcom's `Config` is built from. The dictionary
  holds 42 renamed fixed keys, the indexed `OUTPSF{k}`/`EXTRASMOOTH{k}` keys
  when `n_out > 1`, and the linear-algebra keys chosen by `linear_algebra`.
- `modify_config` sets each entry of an options dictionary as an attribute of
  an existing configuration object and returns that object.

Files:

- `values.dfy` (module `PyValues`): the YAML values the translation reads, and
  the Python behaviour the source depends on. This covers subscripting a list or a
  string, comparing with `> 1`, and the errors `KeyError`, `TypeError` and
  `IndexError`, which are modelled as error results.
- `decimal.dfy` (module `DecimalText`): the decimal rendering of `i+1` in
  `f"OUTPSF{i+1}"`, with its parsing inverse.
- `keys.dfy` (module `ImcomKeys`): the 42 renamings of the dictionary display
  in source order, the indexed key names, and the facts that keep keys apart.
  Fixed target names are pairwise distinct and end in a letter. Indexed names end
  in a digit and are injective.
- `imcom_config.dfy` (module `ImcomConfig`): the fixed part as a function. The
  `for` loop and the `if`/`elif` insertions are methods that update the
  dictionary being built. `MakeImcomConfig` is proved equal to the declarative
  translation `Translate`.
- `translate_props.dfy` (module `TranslateProperties`): what the translation
  promises. This covers which keys exist and where their values come from,
  the conditions for the conditional keys, that nothing is overwritten,
  the inputs that are never read, and when and how the translation fails.
- `modify_config.dfy` (module `ConfigObject`): the configuration object as a
  class with an attribute map, and `modify_config` as a loop of `setattr` calls
  on it.

`config_dict` is a local variable of `make_imcom_config`, not an object
field. It is therefore a local `map` that the methods `InsertIndexed` and
`InsertMode` take and return. `cfg` in `modify_config` is an object that the
caller also holds. That is why it is a `class` whose method changes its field.

Python behaviour that the model writes out:

- `config_yaml["n_out"] > 1` is false for a bool. It raises `TypeError` for
  `None`, a string or a list.
- A float `n_out` greater than 1 passes the test, but makes `range(n_out + 1)`
  raise `TypeError`.
- A string subscript yields a one-character string.
- The first read that fails decides the error. The display is evaluated in
  order. Within a loop iteration, `outpsf_extra[i]` is read before
  `sigmatarget_extra[i]`.

## Model

| member | source | states |
|---|---|---|
| PyValues.Subscript | src/imcom_pipeline/utils/configutils.py:85-86 | `v[i]` succeeds iff `v` is a list or string longer than `i`, giving item `i`. Otherwise it is a TypeError or an IndexError naming the field. |
| PyValues.GreaterThanOne | src/imcom_pipeline/utils/configutils.py:82 | `n_out > 1` is true exactly for an int or float above 1. It raises TypeError for None, a string or a list. |
| DecimalText.Decimal | src/imcom_pipeline/utils/configutils.py:85-86 | The rendering of an index is a non-empty string of digits with no leading zero, as `f"{i+1}"` writes it. |
| ImcomKeys.IndexedKeyExamples | src/imcom_pipeline/utils/configutils.py:85-86 | For `n_out = 2` the keys are OUTPSF2, EXTRASMOOTH2, OUTPSF3 and EXTRASMOOTH3. A two-digit suffix gives OUTPSF10. |
| DecimalText.ParseDecimalOfDecimal | src/imcom_pipeline/utils/configutils.py:85-86 | Parsing the rendering of `n` gives back `n`. |
| DecimalText.DecimalInjective | src/imcom_pipeline/utils/configutils.py:85-86 | Distinct indices render to distinct strings. |
| ImcomKeys.FixedTargetsDistinct | src/imcom_pipeline/utils/configutils.py:13-79 | The display has 42 entries, and no two of them share a target key. |
| ImcomKeys.FixedTargetsEndInLetters | src/imcom_pipeline/utils/configutils.py:13-79 | No fixed target key ends in a digit. |
| ImcomKeys.OtherKeysEndInLetters | src/imcom_pipeline/utils/configutils.py:21-92 | The disabled and linear-algebra keys do not end in a digit. |
| ImcomKeys.FixedTargetsExclude | src/imcom_pipeline/utils/configutils.py:13-92 | PMASK, CMASK, LABNOISETHRESHOLD, ITERRTOL, ITERMAX and EMPIRNQC are not fixed target keys. |
| ImcomKeys.IndexedKeyEndsInDigit | src/imcom_pipeline/utils/configutils.py:85-86 | `OUTPSF{k}` and `EXTRASMOOTH{k}` end in a digit. |
| ImcomKeys.IndexedKeyIsNew | src/imcom_pipeline/utils/configutils.py:85-86 | An indexed key is no fixed, disabled or linear-algebra key. |
| ImcomKeys.IndexedKeysInjective | src/imcom_pipeline/utils/configutils.py:85-86 | `OUTPSF{a}` is never `EXTRASMOOTH{b}`. Equal indexed keys have equal indices. |
| ImcomConfig.FixedPart | src/imcom_pipeline/utils/configutils.py:13-79 | The display succeeds iff every source field is present, and then has exactly the target keys. Otherwise it is a KeyError for the first missing field. |
| ImcomConfig.FixedPartValue | src/imcom_pipeline/utils/configutils.py:13-79 | A target not written again later holds its source field's value. |
| ImcomConfig.NOutIsRead | src/imcom_pipeline/utils/configutils.py:46 | A successful display has read `n_out`. |
| ImcomConfig.InsertIndexed | src/imcom_pipeline/utils/configutils.py:83-86 | The loop from index 0 to `n_out`, skipping 0, inserts what `IndexedPart` describes. It stops with the first failing read. |
| ImcomConfig.InsertMode | src/imcom_pipeline/utils/configutils.py:88-92 | The `if`/`elif` inserts what `ModePart` describes. |
| ImcomConfig.MakeImcomConfig | src/imcom_pipeline/utils/configutils.py:13-92 | The whole construction returns exactly `Translate(src)`, success or error. |
| TranslateProperties.IndexedEntriesKeys | src/imcom_pipeline/utils/configutils.py:83-86 | The loop writes exactly `OUTPSF{i+1}` and `EXTRASMOOTH{i+1}` for `i` in `1..n`. |
| TranslateProperties.IndexedEntriesAt | src/imcom_pipeline/utils/configutils.py:83-86 | Item `i` of each list lands under suffix `i+1`, and no later iteration overwrites it. |
| TranslateProperties.IndexedKeysAreNew | src/imcom_pipeline/utils/configutils.py:84-86 | OUTPSF1 and EXTRASMOOTH1 are never written. Indexed keys are disjoint from the fixed, disabled and linear-algebra keys. |
| TranslateProperties.IndexedPartOk | src/imcom_pipeline/utils/configutils.py:82-86 | The loop succeeds iff both lists are longer than `n_out`. Its keys and values are then as above. |
| TranslateProperties.FixedPartOfFixedFields | src/imcom_pipeline/utils/configutils.py:13-79 | Each fixed key of the display holds its own source field. |
| TranslateProperties.IndexedStageEntries | src/imcom_pipeline/utils/configutils.py:82-86 | The indexed stage adds the indexed keys for `n_out` when it is an int above 1, and nothing otherwise. It adds them with their list items. |
| TranslateProperties.ModePartEntries | src/imcom_pipeline/utils/configutils.py:88-92 | The mode stage adds ITERRTOL and ITERMAX for "Iterative", EMPIRNQC for "Empirical", and nothing otherwise. Each holds its source field. |
| TranslateProperties.TranslateParts | src/imcom_pipeline/utils/configutils.py:13-92 | A successful result is the fixed part, overlaid by the indexed part, overlaid by the mode part. |
| TranslateProperties.TranslateSucceedsIff | src/imcom_pipeline/utils/configutils.py:13-92 | The translation succeeds iff every field it reads is present and usable. That means `n_out` is comparable and is an int when above 1, both lists are longer than `n_out`, and the selected mode's fields are present. |
| TranslateProperties.TranslateKeys | src/imcom_pipeline/utils/configutils.py:13-92 | The result's keys are exactly the fixed keys, the indexed keys and the selected mode's keys. |
| TranslateProperties.FixedEntriesSurvive | src/imcom_pipeline/utils/configutils.py:13-92 | The later insertions never overwrite a fixed entry. |
| TranslateProperties.TranslateFixedValues | src/imcom_pipeline/utils/configutils.py:13-79 | Each of the 42 fixed keys is present and holds its named source field, e.g. MOSAICID holds `mosaic`. |
| TranslateProperties.IndexedEntriesSurvive | src/imcom_pipeline/utils/configutils.py:82-92 | The linear-algebra insertions never overwrite an indexed entry. |
| TranslateProperties.TranslateIndexedValues | src/imcom_pipeline/utils/configutils.py:82-86 | For `n_out > 1`, each `i` in `1..n_out` has `OUTPSF{i+1} = outpsf_extra[i]` and `EXTRASMOOTH{i+1} = sigmatarget_extra[i]`. Both lists are longer than `n_out`. |
| TranslateProperties.TranslateModeEntries | src/imcom_pipeline/utils/configutils.py:88-92 | ITERRTOL and ITERMAX are present iff the selector is "Iterative", and EMPIRNQC iff it is "Empirical". They hold their source values, and the two groups are never both present. |
| TranslateProperties.TranslateOmits | src/imcom_pipeline/utils/configutils.py:13-92 | PMASK, CMASK, LABNOISETHRESHOLD, OUTPSF1 and EXTRASMOOTH1 never appear. |
| TranslateProperties.FixedPartOmits | src/imcom_pipeline/utils/configutils.py:13-79 | The display holds none of the disabled keys, OUTPSF1 or EXTRASMOOTH1. |
| TranslateProperties.IndexedStageOmits | src/imcom_pipeline/utils/configutils.py:82-86 | The loop writes none of the disabled keys, OUTPSF1 or EXTRASMOOTH1. |
| TranslateProperties.ModePartOmits | src/imcom_pipeline/utils/configutils.py:88-92 | The mode stage writes none of the disabled keys, OUTPSF1 or EXTRASMOOTH1. |
| TranslateProperties.FixedPartReadsOnlySources | src/imcom_pipeline/utils/configutils.py:13-79 | The display's outcome depends only on its source fields. |
| TranslateProperties.FixedSourcesAreNotLists | src/imcom_pipeline/utils/configutils.py:13-79 | The display reads neither `outpsf_extra` nor `sigmatarget_extra`. |
| TranslateProperties.OtherPartsIgnoreLists | src/imcom_pipeline/utils/configutils.py:88-92 | The mode stage and `n_out` do not depend on the two extra lists. |
| TranslateProperties.FixedPartIgnoresLists | src/imcom_pipeline/utils/configutils.py:13-79 | The display does not depend on the two extra lists. |
| TranslateProperties.ExtrasIgnoredForSingleOutput | src/imcom_pipeline/utils/configutils.py:82 | When `n_out` is not above 1, changing or removing `outpsf_extra` and `sigmatarget_extra` does not change the outcome. |
| TranslateProperties.IndexedEntriesSkipItemZero | src/imcom_pipeline/utils/configutils.py:83-86 | The loop's entries do not depend on item 0 of either list. |
| TranslateProperties.IndexedPartSkipsItemZero | src/imcom_pipeline/utils/configutils.py:82-86 | The loop's outcome, error included, does not depend on item 0 of either list. |
| TranslateProperties.IndexZeroNeverRead | src/imcom_pipeline/utils/configutils.py:84 | Sources differing only in item 0 of the extra lists translate alike. |
| TranslateProperties.TranslateMissingFixedField | src/imcom_pipeline/utils/configutils.py:15-77 | The first missing fixed source field makes the translation raise KeyError naming it. |
| TranslateProperties.TranslateErrorsAreGenuine | src/imcom_pipeline/utils/configutils.py:13-92 | Each error is real. A KeyError names a missing field, and an IndexError names a list no longer than its index. A TypeError names `n_out` or a field that cannot be subscripted. |
| ConfigObject.Config.SetAttr | src/imcom_pipeline/utils/configutils.py:115 | `setattr` adds or replaces one attribute and keeps every other. |
| ConfigObject.Applied | src/imcom_pipeline/utils/configutils.py:114-115 | After setting the options, each option holds its value and every other attribute is kept. |
| ConfigObject.ModifyConfig | src/imcom_pipeline/utils/configutils.py:113-120 | With no options the object is unchanged. Otherwise its attributes become `Applied(old attributes, options)`. The same object is returned. |
| ConfigObject.AppliedIdempotent | src/imcom_pipeline/utils/configutils.py:114-115 | Setting the same options twice equals setting them once. |
| ConfigObject.AppliedInAnyOrder | src/imcom_pipeline/utils/configutils.py:114-115 | Options with distinct names give the same attributes in either order, so the dictionary's iteration order does not matter. |
| ConfigObject.AppliedNothing | src/imcom_pipeline/utils/configutils.py:113-115 | An empty options dictionary changes nothing. |

## Left out

- The foreign library and file output: `pyimcom.config.Config(cfg_file=json.dumps(...))`,
  `cfg.to_file(...)` and the `fname` write of `modify_config`
  (src/imcom_pipeline/utils/configutils.py:93-95, 117-118). They are
  serialisation and I/O inside code that is not part of this model.
  `MakeImcomConfig` ends with the dictionary that would be handed to it.
- The order of the dictionary's keys, and so the order of keys in the JSON
  text. The model's dictionaries are maps.
- YAML mappings as values. `Value` has None, bool, int, float, string and
  list, and no mapping. In Python a mapping given as `outpsf_extra` or
  `sigmatarget_extra` is subscripted by key at
  src/imcom_pipeline/utils/configutils.py:85-86: `{1: a, 2: b}[1]` succeeds, and a
  missing integer key raises KeyError rather than IndexError. A mapping given
  as `n_out` raises TypeError at line 82. None of this is modelled.
- PyValues.GreaterThanOne: floats are exact reals, so YAML `.inf` and `.nan`
  are not values of the model. In Python `.inf > 1` is true at
  src/imcom_pipeline/utils/configutils.py:82, and `range` then raises
  TypeError. `.nan > 1` is false, so no indexed keys are added.
- ConfigObject.ModifyConfig: option names are strings. A non-string key,
  for which `setattr` raises TypeError, is not modelled.
- Both `stages.py` files. They declare input/output tables and call
  external libraries. Their runtime (`scm_pipeline.PipelineStage`) is not
  part of this model.
- `utils/make_imcom_config.py`. It is a template stub that refers to
  undefined names.
- The worker counts passed to external parallel routines
  (src/imcom_pipeline/stages.py:103, 156). That concurrency is inside foreign code.
- Block partitioning and parallel dispatch for the coaddition stage. The
  code has only a comment saying this is still to be worked out
  (src/imcom_pipeline/stages.py:127-129), so there is nothing to model.
