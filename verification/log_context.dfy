/** `LoggerContext` of src/core/logger.py: a class-level registry of context
    variables, each holding a string (default `''`). The per-task `ContextVar`
    semantics and the lock are collapsed into one map from registered key to
    current value; a key, once registered, is never unregistered. */
module LoggerContext {
  import opened Wrappers

  type Context = map<string, string>

  /** `get_context(key)`: the current value, `''` for a key never set. */
  function GetContext(ctx: Context, key: string): (r: string)
    ensures key in ctx ==> r == ctx[key]
    ensures key !in ctx ==> r == ""
  {
    if key in ctx then ctx[key] else ""
  }

  /** `set_context(key, value)`: registers `key` if needed and sets it to
      `str(value)` (values are already strings here). */
  function SetContext(ctx: Context, key: string, value: string): (r: Context)
    ensures r.Keys == ctx.Keys + {key}
    ensures GetContext(r, key) == value
    ensures forall k :: k != key ==> GetContext(r, k) == GetContext(ctx, k)
  {
    ctx[key := value]
  }

  /** One `set_context` per item of `values`, in any order (the keys are distinct). */
  function SetAll(ctx: Context, values: map<string, string>): (r: Context)
    ensures r.Keys == ctx.Keys + values.Keys
    ensures forall k :: k in values ==> GetContext(r, k) == values[k]
    ensures forall k :: k !in values ==> GetContext(r, k) == GetContext(ctx, k)
  {
    ctx + values
  }

  /** `get_all_context()`: every registered key with its value, blank ones included. */
  function GetAllContext(ctx: Context): (r: map<string, string>)
    ensures r.Keys == ctx.Keys
    ensures forall k :: k in r ==> r[k] == GetContext(ctx, k)
  {
    ctx
  }

  /** `clear_context(key)`: blanks `key` when it is a non-empty registered key;
      `None` blanks every key; `''` or an unregistered key changes nothing. */
  function ClearContext(ctx: Context, key: Option<string>): (r: Context)
    ensures r.Keys == ctx.Keys
    ensures key.None? ==> forall k :: GetContext(r, k) == ""
    ensures key.Some? && key.value != "" ==>
      && GetContext(r, key.value) == ""
      && forall k :: k != key.value ==> GetContext(r, k) == GetContext(ctx, k)
    ensures key.Some? && (key.value == "" || key.value !in ctx) ==> r == ctx
  {
    match key
    case Some(k) => if k != "" && k in ctx then ctx[k := ""] else ctx
    case None => map k | k in ctx :: ""
  }

  /** The empty key can be registered but never cleared by name. */
  lemma EmptyKeyNotClearedByName(ctx: Context, v: string)
    ensures var c := SetContext(ctx, "", v);
      GetContext(ClearContext(c, Some("")), "") == v
  {
  }
}
