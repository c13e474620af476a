/**
 * `get_model` (abby/model/__init__.py): the leakage model a configuration
 * string names. "elmo" and "hw" are exact names; "xgb,", "catboost," and
 * "mlp," are prefixes followed by the path the model is loaded from or
 * saved to.
 *
 * The learned models only record their path and `create` flag here; their
 * loading and training are not part of this model.
 */
module ModelDispatch {
  import opened Common
  import ModelBase
  import HammingWeightModel

  datatype Model =
    | Elmo
    | HammingWeight(hw: HammingWeightModel.HwModel)
    | Xgb(path: string, create: bool)
    | CatBoost(path: string, create: bool)
    | Mlp(path: string, create: bool)

  predicate StartsWith(s: string, prefix: string)
  {
    |prefix| <= |s| && s[..|prefix|] == prefix
  }

  /** `ELMOModel(create)`: ELMO cannot be trained, so creating one raises. */
  function NewElmo(create: bool): (r: Result<Model, ModelBase.ModelError>)
    ensures r.Err? <==> create
    ensures r.Err? ==> r.error == ModelBase.NotImplementedError
  {
    if create then Err(ModelBase.NotImplementedError) else Ok(Elmo)
  }

  /** The message of the `ValueError` for an unrecognised configuration. */
  function UnknownMessage(cfg: string): string
  {
    "Failed to recognize " + cfg + ", it should be `elmo`, `xgb,path` or `mlp,path`."
  }

  /** A configuration some branch of `get_model` accepts. */
  predicate Recognized(cfg: string)
  {
    cfg == "elmo" || cfg == "hw" || StartsWith(cfg, "xgb,") || StartsWith(cfg, "catboost,") || StartsWith(cfg, "mlp,")
  }

  /** `get_model(model_cfg, create)`: the first branch that matches decides. */
  function GetModel(cfg: string, create: bool): (r: Result<Model, ModelBase.ModelError>)
    ensures !Recognized(cfg) <==> r == Err(ModelBase.ValueError(UnknownMessage(cfg)))
    ensures r.Err? && r.error != ModelBase.NotImplementedError ==> !Recognized(cfg)
  {
    if cfg == "elmo" then NewElmo(create)
    else if cfg == "hw" then
      var m := HammingWeightModel.New(create);
      if m.Err? then Err(m.error) else Ok(HammingWeight(m.value))
    else if StartsWith(cfg, "xgb,") then Ok(Xgb(cfg[4..], create))
    else if StartsWith(cfg, "catboost,") then Ok(CatBoost(cfg[9..], create))
    else if StartsWith(cfg, "mlp,") then Ok(Mlp(cfg[4..], create))
    else Err(ModelBase.ValueError(UnknownMessage(cfg)))
  }

  /** The two exact names select their model; asking to create either raises. */
  lemma ExactNames(create: bool)
    ensures GetModel("elmo", create) == (if create then Err(ModelBase.NotImplementedError) else Ok(Elmo))
    ensures GetModel("hw", create) ==
      (if create then Err(ModelBase.NotImplementedError) else Ok(HammingWeight(HammingWeightModel.HwModel)))
  {
  }

  /** A prefix selects its model, with everything after the prefix (maybe nothing) as the path, and `create` passed on. */
  lemma PrefixedNames(path: string, create: bool)
    ensures GetModel("xgb," + path, create) == Ok(Xgb(path, create))
    ensures GetModel("catboost," + path, create) == Ok(CatBoost(path, create))
    ensures GetModel("mlp," + path, create) == Ok(Mlp(path, create))
  {
    var x, c, m := "xgb," + path, "catboost," + path, "mlp," + path;
    assert x[..4] == "xgb," && x[4..] == path;
    assert c[..9] == "catboost," && c[9..] == path;
    assert m[..4] == "mlp," && m[4..] == path;
    assert !StartsWith(c, "xgb,") by { assert c[0] == 'c'; }
    assert !StartsWith(m, "xgb,") && !StartsWith(m, "catboost,") by { assert m[0] == 'm'; }
  }

  /**
   * At most one branch matches: the prefixes exclude each other and the
   * exact names, which hold no comma. So the order of the branches does
   * not matter.
   */
  lemma BranchesDisjoint(cfg: string)
    ensures StartsWith(cfg, "xgb,") ==> !StartsWith(cfg, "catboost,") && !StartsWith(cfg, "mlp,") && cfg != "elmo" && cfg != "hw"
    ensures StartsWith(cfg, "catboost,") ==> !StartsWith(cfg, "mlp,") && cfg != "elmo" && cfg != "hw"
    ensures StartsWith(cfg, "mlp,") ==> cfg != "elmo" && cfg != "hw"
  {
    if StartsWith(cfg, "xgb,") {
      assert cfg[0] == 'x';
      assert "catboost,"[0] != 'x' && "mlp,"[0] != 'x';
    }
    if StartsWith(cfg, "catboost,") {
      assert cfg[0] == 'c';
      assert cfg[3] == 'b';
    }
    if StartsWith(cfg, "mlp,") {
      assert cfg[3] == ',';
    }
  }

  /** The documented "hd" is not accepted: only "hw" selects the Hamming weight model. */
  lemma HdRejected(create: bool)
    ensures GetModel("hd", create) == Err(ModelBase.ValueError(UnknownMessage("hd")))
  {
    assert !StartsWith("hd", "xgb,") && !StartsWith("hd", "catboost,") && !StartsWith("hd", "mlp,");
  }
}
