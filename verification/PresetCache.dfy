/** The runtime evaluator's preset cache under hot reload: any number of resolving and reloading threads
share a default query and a cache of compiled queries.

Sources and the policy compiler are parameters, so every statement holds for any presets. */
module PresetCache {
  import opened Outcomes

  /** A compiled query; `modules` are the extra modules compiled in. */
  datatype Presets<!Source, !Query, !Modules> = Presets(
    source: string -> Option<Source>,
    compile: (Source, Modules) -> Option<Query>)
  {
    /** What a lookup without any cache would return. */
    function Direct(name: string, modules: Modules): Option<Query> {
      match source(name)
      case None => None
      case Some(src) => compile(src, modules)
    }
  }

  // ----- The evaluator's fields, one lock region at a time ----------------------------------

  datatype Fields<Query> = Fields(prepared: Query, defaultPreset: string, cache: map<string, Query>)

  /** Write lock of a resolve: keep what is there, else add the freshly compiled query. */
  function Commit<Query>(f: Fields<Query>, name: string, compiled: Query): (r: (Fields<Query>, Query))
    ensures name in r.0.cache && r.0.cache[name] == r.1
  {
    if name in f.cache then (f, f.cache[name]) else (f.(cache := f.cache[name := compiled]), compiled)
  }

  /** Write lock of a reload. */
  function Install<Query>(f: Fields<Query>, name: string, prepared: Query): Fields<Query> {
    Fields(prepared, name, f.cache[name := prepared])
  }

  class Evaluator<Source, Query, Modules> {
    const presets: Presets<Source, Query, Modules>
    const modules: Modules
    var fields: Fields<Query>

    /** Every stored query is what compiling its preset with the constructor's modules gives. */
    ghost predicate Valid()
      reads this
    {
      Coherent(presets, modules, fields)
    }

    constructor (presets: Presets<Source, Query, Modules>, name: string, modules: Modules, prepared: Query)
      requires presets.Direct(name, modules) == Some(prepared)
      ensures Valid() && this.presets == presets && this.modules == modules
      ensures fields == Fields(prepared, name, map[name := prepared])
    {
      this.presets, this.modules := presets, modules;
      fields := Fields(prepared, name, map[name := prepared]);
    }

    /** The default query for the empty name, else the named one, compiled at most once. */
    method ResolvePreset(name: string) returns (r: Option<Query>)
      requires Valid()
      modifies this
      ensures Valid()
      ensures r == if name == "" then Some(old(fields).prepared) else presets.Direct(name, modules)
      ensures fields.prepared == old(fields).prepared && fields.defaultPreset == old(fields).defaultPreset
      ensures name == "" || r.None? ==> fields == old(fields)
    {
      if name == "" {
        return Some(fields.prepared);
      }
      if name in fields.cache {
        return Some(fields.cache[name]);
      }
      var source := presets.source(name);
      if source.None? {
        return None;
      }
      var compiled := presets.compile(source.value, modules);
      if compiled.None? {
        return None;
      }
      var committed := Commit(fields, name, compiled.value);
      fields := committed.0;
      r := Some(committed.1);
    }

    /** Replaces the default query, or changes nothing when the preset does not compile. */
    method ReloadPolicy(name: string, extra: Modules) returns (ok: bool)
      requires Valid()
      modifies this
      ensures ok <==> presets.Direct(name, extra).Some?
      ensures !ok ==> fields == old(fields)
      ensures ok ==> fields == Install(old(fields), name, presets.Direct(name, extra).value)
      ensures Valid() <==> (ok ==> presets.Direct(name, extra) == presets.Direct(name, modules))
    {
      var source := presets.source(name);
      if source.None? {
        return false;
      }
      var prepared := presets.compile(source.value, extra);
      if prepared.None? {
        return false;
      }
      ReloadIsCoherent(presets, modules, fields, name, prepared.value);
      fields := Install(fields, name, prepared.value);
      ok := true;
    }
  }

  ghost predicate Coherent<Source, Query, Modules>(p: Presets<Source, Query, Modules>, modules: Modules, f: Fields<Query>) {
    && p.Direct(f.defaultPreset, modules) == Some(f.prepared)
    && forall n | n in f.cache :: p.Direct(n, modules) == Some(f.cache[n])
  }

  /** A reload keeps the cache coherent exactly when its query is what the constructor's modules give. */
  lemma ReloadIsCoherent<Source, Query, Modules>(p: Presets<Source, Query, Modules>, modules: Modules, f: Fields<Query>, name: string, q: Query)
    requires Coherent(p, modules, f)
    ensures Coherent(p, modules, Install(f, name, q)) <==> p.Direct(name, modules) == Some(q)
  {
  }

  // ----- All interleavings ------------------------------------------------------------------

  datatype Thread<Query> =
    | Resolving(name: string)                      // about to look
    | Compiling(name: string)                      // missed, compiling outside the lock
    | Committing(name: string, compiled: Query)    // about to take the write lock
    | Answered(name: string, answer: Option<Query>)
    | Reloading(name: string)                      // compiling outside the lock
    | Installing(name: string, prepared: Query)    // about to take the write lock
    | Reloaded(name: string, ok: bool)

  /** `reloads` lists the presets of completed reloads, after the constructor's. */
  datatype System<Query> = System(fields: Fields<Query>, threads: seq<Thread<Query>>, reloads: seq<string>)

  datatype Step = Resolve(name: string) | Reload(name: string) | Advance(i: nat)

  predicate Enabled<Query>(s: System<Query>, step: Step) {
    step.Advance? ==> step.i < |s.threads| && !s.threads[step.i].Answered? && !s.threads[step.i].Reloaded?
  }

  function After<Source, Query, Modules>(p: Presets<Source, Query, Modules>, modules: Modules, s: System<Query>, step: Step)
    : System<Query>
    requires Enabled(s, step)
  {
    match step
    case Resolve(name) => s.(threads := s.threads + [Resolving(name)])
    case Reload(name) => s.(threads := s.threads + [Reloading(name)])
    case Advance(i) =>
      match s.threads[i]
      case Resolving(name) =>
        s.(threads := s.threads[i :=
          if name == "" then Answered(name, Some(s.fields.prepared))
          else if name in s.fields.cache then Answered(name, Some(s.fields.cache[name]))
          else Compiling(name)])
      case Compiling(name) =>
        var q := p.Direct(name, modules);
        s.(threads := s.threads[i := if q.None? then Answered(name, None) else Committing(name, q.value)])
      case Committing(name, compiled) =>
        var (fields, q) := Commit(s.fields, name, compiled);
        s.(threads := s.threads[i := Answered(name, Some(q))], fields := fields)
      case Reloading(name) =>
        var q := p.Direct(name, modules);
        s.(threads := s.threads[i := if q.None? then Reloaded(name, false) else Installing(name, q.value)])
      case Installing(name, prepared) =>
        System(Install(s.fields, name, prepared), s.threads[i := Reloaded(name, true)], s.reloads + [name])
      case _ => s
  }

  ghost predicate Start<Source, Query, Modules>(p: Presets<Source, Query, Modules>, modules: Modules, s: System<Query>) {
    && s.threads == [] && s.reloads == [s.fields.defaultPreset]
    && p.Direct(s.fields.defaultPreset, modules) == Some(s.fields.prepared)
    && s.fields.cache == map[s.fields.defaultPreset := s.fields.prepared]
  }

  ghost predicate Next<Source, Query, Modules>(p: Presets<Source, Query, Modules>, modules: Modules, s: System<Query>, s': System<Query>) {
    exists step :: Enabled(s, step) && s' == After(p, modules, s, step)
  }

  ghost predicate Behaviour<Source, Query, Modules>(p: Presets<Source, Query, Modules>, modules: Modules, tr: seq<System<Query>>) {
    && tr != [] && Start(p, modules, tr[0])
    && forall i | 0 <= i < |tr| - 1 :: Next(p, modules, tr[i], tr[i + 1])
  }

  /** What a thread carries is always what compiling its preset directly gives; an answered default
      lookup holds the query of one of the presets reloaded so far. */
  ghost predicate ThreadValid<Source, Query, Modules>(p: Presets<Source, Query, Modules>, modules: Modules, s: System<Query>, t: Thread<Query>) {
    match t
    case Compiling(name) => name != ""
    case Committing(name, q) => name != "" && p.Direct(name, modules) == Some(q)
    case Installing(name, q) => p.Direct(name, modules) == Some(q)
    case Answered(name, answer) =>
      if name != "" then answer == p.Direct(name, modules)
      else exists k :: 0 <= k < |s.reloads| && answer == p.Direct(s.reloads[k], modules)
    case Reloaded(name, ok) => ok <==> p.Direct(name, modules).Some?
    case _ => true
  }

  ghost predicate Valid<Source, Query, Modules>(p: Presets<Source, Query, Modules>, modules: Modules, s: System<Query>) {
    && Coherent(p, modules, s.fields)
    && s.reloads != [] && s.reloads[|s.reloads| - 1] == s.fields.defaultPreset
    && forall i | 0 <= i < |s.threads| :: ThreadValid(p, modules, s, s.threads[i])
  }

  lemma ThreadsKept<Source, Query, Modules>(p: Presets<Source, Query, Modules>, modules: Modules, s: System<Query>, s': System<Query>, t: Thread<Query>)
    requires ThreadValid(p, modules, s, t) && s.reloads <= s'.reloads
    ensures ThreadValid(p, modules, s', t)
  {
    if t.Answered? && t.name == "" {
      var k :| 0 <= k < |s.reloads| && t.answer == p.Direct(s.reloads[k], modules);
      assert s'.reloads[k] == s.reloads[k];
    }
  }

  lemma ValidKept<Source, Query, Modules>(p: Presets<Source, Query, Modules>, modules: Modules, s: System<Query>, s': System<Query>)
    requires Valid(p, modules, s) && Next(p, modules, s, s')
    ensures Valid(p, modules, s')
  {
    var step :| Enabled(s, step) && s' == After(p, modules, s, step);
    assert s.reloads <= s'.reloads;
    forall i | 0 <= i < |s'.threads| ensures ThreadValid(p, modules, s', s'.threads[i]) {
      if i < |s.threads| && !(step.Advance? && step.i == i) {
        assert s'.threads[i] == s.threads[i];
        ThreadsKept(p, modules, s, s', s.threads[i]);
      } else if step.Advance? {
        AdvanceValid(p, modules, s, i);
      }
    }
  }

  lemma AdvanceValid<Source, Query, Modules>(p: Presets<Source, Query, Modules>, modules: Modules, s: System<Query>, i: nat)
    requires Valid(p, modules, s) && Enabled(s, Advance(i))
    ensures var s' := After(p, modules, s, Advance(i));
            ThreadValid(p, modules, s', s'.threads[i])
  {
    assert ThreadValid(p, modules, s, s.threads[i]);
    var s' := After(p, modules, s, Advance(i));
    if s.threads[i].Resolving? && s.threads[i].name == "" {
      var last := |s.reloads| - 1;
      assert s'.threads[i].answer == p.Direct(s'.reloads[last], modules);
    }
  }

  lemma {:induction false} AlwaysValid<Source, Query, Modules>(p: Presets<Source, Query, Modules>, modules: Modules, tr: seq<System<Query>>, i: nat)
    requires Behaviour(p, modules, tr) && i < |tr|
    ensures Valid(p, modules, tr[i])
  {
    hide Next;
    if i > 0 {
      AlwaysValid(p, modules, tr, i - 1);
      assert Next(p, modules, tr[i - 1], tr[i]);
      ValidKept(p, modules, tr[i - 1], tr[i]);
    }
  }

  // ----- The guarantees, over every interleaving --------------------------------------------

  /** The cache never differs from compiling afresh. */
  lemma CacheIsDirect<Source, Query, Modules>(p: Presets<Source, Query, Modules>, modules: Modules, tr: seq<System<Query>>, i: nat, name: string)
    requires Behaviour(p, modules, tr) && i < |tr| && name in tr[i].fields.cache
    ensures Some(tr[i].fields.cache[name]) == p.Direct(name, modules)
  {
    AlwaysValid(p, modules, tr, i);
  }

  /** A named lookup returns what a lookup without a cache would, error included, however it is
      interleaved with reloads. */
  lemma NamedLookupIsDirect<Source, Query, Modules>(p: Presets<Source, Query, Modules>, modules: Modules, tr: seq<System<Query>>, i: nat, t: nat)
    requires Behaviour(p, modules, tr) && i < |tr| && t < |tr[i].threads|
    requires tr[i].threads[t].Answered? && tr[i].threads[t].name != ""
    ensures tr[i].threads[t].answer == p.Direct(tr[i].threads[t].name, modules)
  {
    AlwaysValid(p, modules, tr, i);
  }

  /** A default lookup returns the preset of the last reload completed before it. */
  lemma DefaultLookupIsLastReload<Source, Query, Modules>(p: Presets<Source, Query, Modules>, modules: Modules, tr: seq<System<Query>>, i: nat, t: nat)
    requires Behaviour(p, modules, tr) && i + 1 < |tr| && t < |tr[i].threads| && t < |tr[i + 1].threads|
    requires tr[i].threads[t] == Resolving("") && tr[i + 1].threads[t] != tr[i].threads[t]
    ensures tr[i].reloads != []
    ensures tr[i + 1].threads[t] == Answered("", p.Direct(tr[i].reloads[|tr[i].reloads| - 1], modules))
  {
    AlwaysValid(p, modules, tr, i);
    var step :| Enabled(tr[i], step) && tr[i + 1] == After(p, modules, tr[i], step);
    assert step == Advance(t);
  }

  /** A compilation that fails, in a lookup or in a reload, leaves the shared fields alone. */
  lemma FailureChangesNothing<Source, Query, Modules>(p: Presets<Source, Query, Modules>, modules: Modules, s: System<Query>, step: Step)
    requires Enabled(s, step)
    ensures var s' := After(p, modules, s, step);
            s'.fields != s.fields || s'.reloads != s.reloads ==>
              && step.Advance? && (s.threads[step.i].Committing? || s.threads[step.i].Installing?)
              && (s.threads[step.i].Committing? ==> s'.reloads == s.reloads && s'.fields.prepared == s.fields.prepared)
  {
  }
}
