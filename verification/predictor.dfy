/**
 * `Predictor` (src/mds/adsl/Predictor.cc): picks the prediction back end from
 * the suffix of the predictor script's name. The back ends run a foreign
 * interpreter, so what they return is an input of the model.
 */
module Predictors {

  /** `EINVAL` on Linux; the source returns its negation. */
  const EINVAL: int := 22

  /** `s` ends with `suffix`. */
  predicate HasSuffix(s: string, suffix: string)
  {
    |suffix| <= |s| && s[|s| - |suffix|..] == suffix
  }

  /**
   * `endswith(s, suffix)`: compares the last `strlen(suffix)` characters of `s`
   * with the suffix, walking both from the front of the tail.
   */
  method EndsWith(s: string, suffix: string) returns (r: bool)
    ensures r <==> HasSuffix(s, suffix)
  {
    var caLen := |s|;
    var sufLen := |suffix|;
    if caLen < sufLen {
      return false;
    }
    var caP := caLen - sufLen;
    var sufP := 0;
    while caP < caLen
      invariant caLen - sufLen <= caP <= caLen && sufP == caP - (caLen - sufLen)
      invariant s[caLen - sufLen..caP] == suffix[..sufP]
    {
      if s[caP] != suffix[sufP] {
        assert s[caLen - sufLen..][sufP] != suffix[sufP];
        return false;
      }
      caP, sufP := caP + 1, sufP + 1;
    }
    assert suffix[..sufP] == suffix;
    return true;
  }

  /** The interpreter a script is handed to. */
  datatype Backend = PythonBackend | LuaBackend | NoBackend

  /**
   * `predict(script_name, script, cur_loads, pred_load)`: a name ending in
   * ".py" goes to the Python back end, otherwise one ending in ".lua" to the
   * Lua back end, and anything else is refused with `-EINVAL`. `pyResult` and
   * `luaResult` are what the back ends would answer.
   */
  method Predict(scriptName: string, pyResult: int, luaResult: int) returns (backend: Backend, rc: int)
    ensures backend == PythonBackend <==> HasSuffix(scriptName, ".py")
    ensures backend == LuaBackend <==> !HasSuffix(scriptName, ".py") && HasSuffix(scriptName, ".lua")
    ensures rc == match backend
      case PythonBackend => pyResult
      case LuaBackend => luaResult
      case NoBackend => -EINVAL
  {
    var isPy := EndsWith(scriptName, ".py");
    if isPy {
      return PythonBackend, pyResult;
    }
    var isLua := EndsWith(scriptName, ".lua");
    if isLua {
      return LuaBackend, luaResult;
    }
    return NoBackend, -EINVAL;
  }
}
