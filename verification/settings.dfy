/**
 * getConfig (fch.py): how the raw values of the settings `limit`, `max` and
 * `store` become the display limit HISTLIM, the overflow cut-off HISTMAX and
 * the persisted-store cap HISTSTORE.
 */
module Settings {
  import opened Wrappers
  import opened ConfigStore

  /** The values getConfig binds: HISTLIM, HISTMAX and HISTSTORE. */
  datatype Limits = Limits(limit: nat, maxShown: nat, store: nat)

  /** Overflow cut-off when `max` is missing or invalid: HISTLIM + 5. */
  const DefaultExtra: nat := 5

  /**
   * `isinstance(v, int) and v >= 0`. A Python bool is an int, so `true` and
   * `false` are accepted as 1 and 0.
   */
  function NonNegInt(v: Value): (r: Option<nat>)
    ensures r.Some? <==> (v.Int? && v.i >= 0) || v.Bool?
  {
    match v
    case Int(i) => if i >= 0 then Some(i) else None
    case Bool(b) => Some(if b then 1 else 0)
    case _ => None
  }

  /**
   * The settings after getConfig, given HISTLIM before the call (`None` while
   * it is still unbound). This snapshot has no default for HISTLIM: a missing
   * or invalid `limit` keeps the previous value, and when there is none the
   * source fails with a NameError, modelled as `None`.
   */
  function Interpret(prevLimit: Option<nat>, file: Option<Doc>): (r: Option<Limits>)
    ensures prevLimit.Some? ==> r.Some?
    ensures r.Some? ==> r.value.limit <= r.value.maxShown
    ensures file.None? ==>
      r == if prevLimit.Some? then Some(Limits(prevLimit.value, prevLimit.value + DefaultExtra, 0)) else None
  {
    var limit := NonNegInt(Read(file, "limit"));
    if limit.None? && prevLimit.None? then None
    else
      var lim := if limit.Some? then limit.value else prevLimit.value;
      var extra := NonNegInt(Read(file, "max"));
      var store := NonNegInt(Read(file, "store"));
      Some(Limits(lim,
                  lim + (if extra.Some? then extra.value else DefaultExtra),
                  if store.Some? then store.value else 0))
  }

  /** getConfig fails exactly when `limit` is unusable and HISTLIM was never bound. */
  lemma InterpretFails(prevLimit: Option<nat>, file: Option<Doc>)
    ensures Interpret(prevLimit, file).None?
        <==> prevLimit.None? && NonNegInt(Read(file, "limit")).None?
  {
  }

  /** The three rules getConfig applies, and HISTMAX >= HISTLIM in every case. */
  lemma InterpretRules(prevLimit: Option<nat>, file: Option<Doc>)
    requires Interpret(prevLimit, file).Some?
    ensures var s := Interpret(prevLimit, file).value;
      && s.limit == NonNegInt(Read(file, "limit")).GetOr(prevLimit.GetOr(0))
      && s.maxShown == s.limit + NonNegInt(Read(file, "max")).GetOr(DefaultExtra)
      && s.store == NonNegInt(Read(file, "store")).GetOr(0)
      && s.maxShown >= s.limit
  {
  }

  /** Writing a non-negative integer `limit` makes the next getConfig use it. */
  lemma WrittenLimitTakesEffect(prevLimit: Option<nat>, file: Option<Doc>, n: nat)
    ensures Interpret(prevLimit, Some(Write(file, "limit", Int(n)))).Some?
    ensures Interpret(prevLimit, Some(Write(file, "limit", Int(n)))).value.limit == n
  {
    ReadAfterWrite(file, "limit", Int(n));
  }

  /** Writing `store` changes the store cap and leaves the display limit alone. */
  lemma WrittenStoreTakesEffect(prevLimit: Option<nat>, file: Option<Doc>, n: nat)
    requires Interpret(prevLimit, file).Some?
    ensures Interpret(prevLimit, Some(Write(file, "store", Int(n)))).Some?
    ensures Interpret(prevLimit, Some(Write(file, "store", Int(n)))).value
         == Interpret(prevLimit, file).value.(store := n)
  {
    ReadAfterWrite(file, "store", Int(n));
    ReadOtherAfterWrite(file, "store", "limit", Int(n));
    ReadOtherAfterWrite(file, "store", "max", Int(n));
  }
}
