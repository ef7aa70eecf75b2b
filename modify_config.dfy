/** `modify_config`: setting pipeline options as attributes of an existing
    pyimcom configuration object. */
module ConfigObject {
  import opened PyValues

  /** A pyimcom `Config` object, seen through its attributes. */
  class Config {
    var attrs: map<string, Value>

    constructor(attrs: map<string, Value>)
      ensures this.attrs == attrs
    {
      this.attrs := attrs;
    }

    /** `setattr(cfg, name, value)`: adds the attribute or replaces its value. */
    method SetAttr(name: string, value: Value)
      modifies this
      ensures attrs == old(attrs)[name := value]
    {
      attrs := attrs[name := value];
    }
  }

  /** The attributes after every option has been set: each option's value
      wins, every other attribute is kept. */
  function Applied(attrs: map<string, Value>, options: map<string, Value>): (r: map<string, Value>)
    ensures r.Keys == attrs.Keys + options.Keys
    ensures forall k :: k in options ==> r[k] == options[k]
    ensures forall k :: k in attrs && k !in options ==> r[k] == attrs[k]
  {
    attrs + options
  }

  /** The options that have already been set once `remaining` is left. */
  function Done(options: map<string, Value>, remaining: set<string>): map<string, Value>
  {
    map k | k in options && k !in remaining :: options[k]
  }

  /** `modify_config(cfg, options)`: with no options the object is left as it
      is; otherwise each option is set on it in turn. The same object is
      returned. */
  method ModifyConfig(cfg: Config, options: Option<map<string, Value>>) returns (r: Config)
    modifies cfg
    ensures r == cfg
    ensures options.None? ==> cfg.attrs == old(cfg.attrs)
    ensures options.Some? ==> cfg.attrs == Applied(old(cfg.attrs), options.value)
  {
    if options.Some? {
      var opts := options.value;
      var remaining := opts.Keys;
      while remaining != {}
        invariant remaining <= opts.Keys
        invariant cfg.attrs == old(cfg.attrs) + Done(opts, remaining)
        decreases remaining
      {
        var key :| key in remaining;
        cfg.SetAttr(key, opts[key]);
        remaining := remaining - {key};
        assert Done(opts, remaining) == Done(opts, remaining + {key})[key := opts[key]];
      }
      assert Done(opts, remaining) == opts;
    }
    return cfg;
  }

  /** Setting the same options twice changes nothing more than setting them once. */
  lemma AppliedIdempotent(attrs: map<string, Value>, options: map<string, Value>)
    ensures Applied(Applied(attrs, options), options) == Applied(attrs, options)
  {
  }

  /** Options with distinct names may be set in either order: the order in
      which the dictionary yields them does not matter. */
  lemma AppliedInAnyOrder(attrs: map<string, Value>, first: map<string, Value>, second: map<string, Value>)
    requires first.Keys !! second.Keys
    ensures Applied(Applied(attrs, first), second) == Applied(Applied(attrs, second), first)
    ensures Applied(Applied(attrs, first), second) == Applied(attrs, first + second)
  {
  }

  /** An empty options dictionary leaves the attributes as they are. */
  lemma AppliedNothing(attrs: map<string, Value>)
    ensures Applied(attrs, map[]) == attrs
  {
  }
}
