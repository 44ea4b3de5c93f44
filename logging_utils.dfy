/** The structured-logging helpers: a context that always carries the
    mandatory fields, and binding a context to a logger without the
    fields that are unset. */
module LoggingUtils {
  import opened Text

  /** A logging context: each key's value, `None` standing for Python's
      `None`. */
  type Context<V> = map<string, Option<V>>

  const MandatoryFields: seq<string> :=
    ["message_id", "etapa", "drive_folder_id", "excel_file_id", "request_id",
     "batch_size", "records_processed", "records_skipped", "error_code"]

  /** Every mandatory field, unset. */
  function Defaults<V>(): (r: Context<V>)
    ensures r.Keys == set f | f in MandatoryFields
    ensures forall k :: k in r ==> r[k].None?
  {
    map f | f in MandatoryFields :: None
  }

  /** `ensure_log_context(base, etapa=etapa, **overrides)`: the defaults,
      updated with `base`, then with `etapa` when it is given, then with
      the overrides. An empty `base` leaves the defaults as they are, as
      an absent one does. */
  function EnsureLogContext<V>(base: Context<V>, etapa: Option<V>, overrides: Context<V>): (r: Context<V>)
    ensures forall f :: f in MandatoryFields ==> f in r
    ensures r.Keys == (set f | f in MandatoryFields) + base.Keys + overrides.Keys
  {
    var withBase := Defaults<V>() + base;
    var withEtapa := if etapa.Some? then withBase["etapa" := etapa] else withBase;
    withEtapa + overrides
  }

  /** Precedence: an override beats `etapa`, which beats `base`, which
      beats the unset default. */
  lemma EnsurePrecedence<V>(base: Context<V>, etapa: Option<V>, overrides: Context<V>, k: string)
    requires k in EnsureLogContext(base, etapa, overrides)
    ensures EnsureLogContext(base, etapa, overrides)[k] ==
              if k in overrides then overrides[k]
              else if k == "etapa" && etapa.Some? then etapa
              else if k in base then base[k]
              else None
  {
    var withBase := Defaults<V>() + base;
    if k !in overrides && !(k == "etapa" && etapa.Some?) && k !in base {
      assert k in withBase;
    }
  }

  /** An unset `etapa` never replaces the one `base` carries. */
  lemma EtapaKeptFromBase<V>(base: Context<V>, overrides: Context<V>)
    requires "etapa" in base && "etapa" !in overrides
    ensures EnsureLogContext(base, None, overrides)["etapa"] == base["etapa"]
  {
    EnsurePrecedence(base, None, overrides, "etapa");
  }

  /** A structlog logger, seen through the context it has bound. */
  datatype BoundLogger<V> = BoundLogger(bound: map<string, V>)

  /** The keys of a context whose value is set, with those values. */
  function SetFields<V>(c: Context<V>): (r: map<string, V>)
    ensures forall k :: k in r <==> k in c && c[k].Some?
    ensures forall k :: k in r ==> c[k] == Some(r[k])
  {
    map k | k in c && c[k].Some? :: c[k].value
  }

  /** `bind_log_context(logger, context, **extra)`: the context updated
      with `extra`, without its unset keys, bound to the logger; the
      logger itself when nothing is left. */
  function BindLogContext<V>(logger: BoundLogger<V>, context: Context<V>, extra: Context<V>): (r: BoundLogger<V>)
  {
    var filtered := SetFields(context + extra);
    if filtered == map[] then logger else BoundLogger(logger.bound + filtered)
  }

  /** What binding adds: a key is newly bound exactly when it is set in
      `extra`, or set in the context and absent from `extra`; its value is
      the one from `extra` first. Everything else the logger had stays. */
  lemma BindSpec<V>(logger: BoundLogger<V>, context: Context<V>, extra: Context<V>, k: string)
    ensures var r := BindLogContext(logger, context, extra);
            && (k in extra && extra[k].Some? ==> k in r.bound && r.bound[k] == extra[k].value)
            && (k !in extra && k in context && context[k].Some? ==> k in r.bound && r.bound[k] == context[k].value)
            && ((k in extra && extra[k].None?) || ((k !in extra) && (k !in context || context[k].None?))
                ==> (k in r.bound <==> k in logger.bound) && (k in logger.bound ==> r.bound[k] == logger.bound[k]))
  {
    var merged := context + extra;
    var filtered := SetFields(merged);
    if k in extra && extra[k].Some? {
      assert k in filtered;
    } else if k !in extra && k in context && context[k].Some? {
      assert k in filtered;
    } else {
      assert k !in filtered;
    }
  }

  /** A context and extras that are all unset bind nothing: the logger
      comes back as it was. */
  lemma BindNothing<V>(logger: BoundLogger<V>, context: Context<V>, extra: Context<V>)
    requires forall k :: k in context ==> context[k].None?
    requires forall k :: k in extra ==> extra[k].None?
    ensures BindLogContext(logger, context, extra) == logger
  {
    assert forall k :: k !in SetFields(context + extra);
  }

  /** Binding the context `ensure_log_context` builds from `etapa` alone
      binds just `etapa`, with the logger's other fields untouched. */
  lemma BindEtapaOnly<V>(logger: BoundLogger<V>, etapa: V)
    ensures BindLogContext(logger, EnsureLogContext(map[], Some(etapa), map[]), map[])
            == BoundLogger(logger.bound["etapa" := etapa])
  {
    var c := EnsureLogContext(map[], Some(etapa), map[]);
    var filtered := SetFields(c + map[]);
    assert c + map[] == c;
    forall k | k in c && k != "etapa"
      ensures c[k].None?
    {
      EnsurePrecedence(map[], Some(etapa), map[], k);
    }
    EnsurePrecedence(map[], Some(etapa), map[], "etapa");
    assert filtered == map["etapa" := etapa];
  }
}
