/** M2Crypto's SSL context object and the process-wide registry that maps a
    native SSL_CTX handle back to the Python `Context` owning it (used by
    callbacks that receive only the handle). The registry object is created
    lazily, once, and kept in the class attribute `_ctxmap.singleton`. */
module SslContext {
  import opened Py

  /** The protocol `Context()` uses when none is given. */
  const DefaultProtocol := "sslv23"
  const KeyMismatch := ["public/private key mismatch"]

  /** The native entry points whose results the modelled code inspects.
      `checkPrivkey(ctx, certfile, keyfile)` is what `ssl_ctx_check_privkey`
      reports once the certificate of `certfile` and the key of `keyfile`
      have been loaded into the context. */
  datatype Native = Native(
    getattr: string -> Attr,
    checkPrivkey: (Handle, string, string) -> bool
  )

  /** `_ctxmap`: a dictionary from native handle to its Context. */
  class CtxMap {
    var entries: map<Handle, Context>

    constructor ()
      ensures entries == map[]
    {
      entries := map[];
    }

    /** __getitem__: KeyError for a key that is not registered. */
    method Get(key: Handle) returns (r: Result<Context>)
      ensures key in entries ==> r == Success(entries[key])
      ensures key !in entries ==> r == Failure(KeyError(key))
    {
      if key in entries {
        r := Success(entries[key]);
      } else {
        r := Failure(KeyError(key));
      }
    }

    /** __setitem__: binds key to value and leaves other keys alone. */
    method Set(key: Handle, value: Context)
      modifies this
      ensures entries == old(entries)[key := value]
    {
      entries := entries[key := value];
    }

    /** __delitem__: removes the key, or raises KeyError when it is absent. */
    method Del(key: Handle) returns (r: Result<()>)
      modifies this
      ensures key in old(entries) ==> r == Success(()) && entries == old(entries) - {key}
      ensures key !in old(entries) ==> r == Failure(KeyError(key)) && entries == old(entries)
    {
      if key !in entries {
        return Failure(KeyError(key));
      }
      entries := entries - {key};
      r := Success(());
    }
  }

  /** The interpreter state of the module: the class attribute
      `_ctxmap.singleton`, None until `map()` first runs. */
  class Globals {
    var singleton: CtxMap?

    constructor ()
      ensures singleton == null
    {
      singleton := null;
    }

    /** The registry's contents; empty while no registry exists. */
    function Entries(): map<Handle, Context>
      reads this, singleton
    {
      if singleton == null then map[] else singleton.entries
    }

    /** map(): creates the registry on the first call only; every call
        returns that one object. */
    method Map() returns (m: CtxMap)
      modifies this
      ensures singleton == m
      ensures old(singleton) != null ==> m == old(singleton)
      ensures old(singleton) == null ==> fresh(m) && m.entries == map[]
      ensures Entries() == old(Entries())
    {
      if singleton == null {
        singleton := new CtxMap();
      }
      m := singleton;
    }
  }

  /** Two calls of map() give the same registry object. */
  method MapTwice(g: Globals) returns (first: CtxMap, second: CtxMap)
    modifies g
    ensures first == second && g.singleton == first
    ensures g.Entries() == old(g.Entries())
  {
    first := g.Map();
    second := g.Map();
  }

  class Context {
    const ctx: Handle
    var allowUnknownCa: int

    /** The part of __init__ after the protocol has been resolved and
        `ssl_ctx_new` has returned `handle`: the flag starts at 0 and the
        object registers itself under its handle. */
    constructor Register(g: Globals, handle: Handle)
      modifies g, g.singleton
      ensures ctx == handle && allowUnknownCa == 0
      ensures g.singleton != null
      ensures old(g.singleton) != null ==> g.singleton == old(g.singleton)
      ensures g.Entries() == old(g.Entries())[handle := this]
    {
      ctx := handle;
      allowUnknownCa := 0;
      new;
      var m := g.Map();
      m.Set(ctx, this);
    }

    /** Context(protocol='sslv23'): `getattr(m2, protocol + '_method')` raises for a
        missing name; a None attribute raises ValueError; otherwise a new
        context is registered under the handle the native allocator gave. */
    static method New(g: Globals, n: Native, handle: Handle, protocol: string := DefaultProtocol) returns (r: Result<Context>)
      modifies g, g.singleton
      ensures old(g.singleton) != null ==> g.singleton == old(g.singleton)
      ensures n.getattr(protocol + "_method").Missing? ==>
                r == Failure(AttributeError(protocol + "_method")) && g.singleton == old(g.singleton) && g.Entries() == old(g.Entries())
      ensures n.getattr(protocol + "_method").NoneValue? ==>
                r == Failure(ValueError(["no such protocol '" + protocol + "'"])) && g.singleton == old(g.singleton) && g.Entries() == old(g.Entries())
      ensures n.getattr(protocol + "_method").Callable? ==>
                && r.Success? && fresh(r.value)
                && r.value.ctx == handle && r.value.allowUnknownCa == 0
                && g.Entries() == old(g.Entries())[handle := r.value]
    {
      var proto := n.getattr(protocol + "_method");
      if proto.Missing? {
        return Failure(AttributeError(protocol + "_method"));
      }
      if proto.NoneValue? {
        return Failure(ValueError(["no such protocol '" + protocol + "'"]));
      }
      var c := new Context.Register(g, handle);
      r := Success(c);
    }

    /** __del__: removes this context's entry, creating the registry first
        if none exists; KeyError when the handle is not registered. */
    method Del(g: Globals) returns (r: Result<()>)
      modifies g, g.singleton
      ensures g.singleton != null
      ensures old(g.singleton) != null ==> g.singleton == old(g.singleton)
      ensures ctx in old(g.Entries()) ==> r == Success(()) && g.Entries() == old(g.Entries()) - {ctx}
      ensures ctx !in old(g.Entries()) ==> r == Failure(KeyError(ctx)) && g.Entries() == old(g.Entries())
    {
      var m := g.Map();
      r := m.Del(ctx);
    }

    /** load_cert(certfile, keyfile=None): a falsy keyfile means the key is
        read from the certificate file; a key that does not match the
        certificate raises ValueError. */
    method LoadCert(n: Native, certfile: string, keyfile: Option<string>) returns (r: Result<()>)
      ensures (keyfile.None? || keyfile == Some("")) ==>
                (r.Success? <==> n.checkPrivkey(ctx, certfile, certfile))
      ensures keyfile.Some? && keyfile.value != "" ==>
                (r.Success? <==> n.checkPrivkey(ctx, certfile, keyfile.value))
      ensures r.Failure? ==> r.error == ValueError(KeyMismatch)
    {
      var key := certfile;
      if keyfile.Some? && keyfile.value != "" {
        key := keyfile.value;
      }
      if !n.checkPrivkey(ctx, certfile, key) {
        return Failure(ValueError(KeyMismatch));
      }
      r := Success(());
    }

    method SetAllowUnknownCa(ok: int)
      modifies this
      ensures allowUnknownCa == ok
    {
      allowUnknownCa := ok;
    }

    method GetAllowUnknownCa() returns (ok: int)
      ensures ok == allowUnknownCa
    {
      ok := allowUnknownCa;
    }
  }

  /** A context's life in a fresh interpreter: construction registers it,
      the flag reads 0 until set and then reads back what was set, its
      handle maps back to it, and an explicit `__del__()` call empties the
      registry. The registry holds a reference to every registered context,
      so the garbage collector does not run `__del__` on its own while the
      context is registered; destruction here is that explicit call, and
      the collector's later calls of `__del__` are not modelled. */
  method ContextLifecycle(n: Native, protocol: string, handle: Handle, ok: int)
    returns (created: bool, before: int, after: int, found: bool, deleted: Result<()>, remaining: map<Handle, Context>)
    requires n.getattr(protocol + "_method").Callable?
    ensures created && before == 0 && after == ok && found
    ensures deleted == Success(()) && remaining == map[]
  {
    var g := new Globals();
    var r := Context.New(g, n, handle, protocol);
    created := r.Success?;
    var c := r.value;
    before := c.GetAllowUnknownCa();
    c.SetAllowUnknownCa(ok);
    after := c.GetAllowUnknownCa();
    var m := g.Map();
    var lookup := m.Get(handle);
    found := lookup == Success(c);
    deleted := c.Del(g);
    remaining := g.Entries();
  }

  /** A registry taken from map() before `Context()` is constructed with the
      default protocol is the one the new context registers in: looking its
      handle up there finds it. */
  method RegisteredInEarlierMap(g: Globals, n: Native, handle: Handle)
    returns (created: bool, lookup: Result<Context>)
    modifies g, g.singleton
    requires n.getattr(DefaultProtocol + "_method").Callable?
    ensures created
    ensures lookup.Success? && lookup.value.ctx == handle
  {
    var m := g.Map();
    var r := Context.New(g, n, handle);
    created := r.Success?;
    lookup := m.Get(handle);
    assert lookup == Success(r.value);
  }
}
