/**
 * The entity/component registry: component classes are registered under a
 * name, and `addComponent` instantiates them on an entity under their
 * property name, runs every new component's `init` and then, in the same
 * order, every new component's `start`.
 *
 * The bodies of `init`, `start`, `enable`, `disable` and `dispose` belong to
 * each component and are not visible here; a call to one of them is recorded
 * as a `Hook` in the entity's log, so that the order of calls is what the
 * contracts talk about.
 */
module ComponentSystem {
  import opened Util

  /** What a registered component class declares on its prototype. */
  datatype ComponentDef = ComponentDef(
    propertyName: string,
    allowMultiple: bool,
    hasInit: bool,
    hasStart: bool)

  /**
   * The second argument of `registerComponent`: a plain prototype object
   * (turned into a Component subclass), or a constructor that may or may
   * not extend Component. `propertyName` is `None` when `__propertyName__`
   * is not a string (the inherited default is `null`).
   */
  datatype ComponentArg =
    | Proto(propertyName: Option<string>, allowMultiple: bool, hasInit: bool, hasStart: bool)
    | Ctor(extendsComponent: bool, propertyName: Option<string>, allowMultiple: bool, hasInit: bool, hasStart: bool)

  /** The module-level `components` dictionary. */
  class Registry {
    var components: map<string, ComponentDef>

    constructor ()
      ensures components == map[]
    {
      components := map[];
    }

    /**
     * `registerComponent`: a name already taken is silently ignored; a
     * constructor that does not extend Component, or a class without a
     * string `__propertyName__`, is refused.
     */
    method RegisterComponent(name: string, arg: ComponentArg) returns (out: Outcome)
      modifies this
      ensures name in old(components) ==> out == Pass && components == old(components)
      ensures name !in old(components) && arg.Ctor? && !arg.extendsComponent ==>
        out == Fail("Invalid argument: expected Component subclass") && components == old(components)
      ensures name !in old(components) && (arg.Proto? || arg.extendsComponent) && arg.propertyName.None? ==>
        out == Fail("Component lacks __propertyName__ property") && components == old(components)
      ensures name !in old(components) && (arg.Proto? || arg.extendsComponent) && arg.propertyName.Some? ==>
        out == Pass && components == old(components)[name :=
          ComponentDef(arg.propertyName.value, arg.allowMultiple, arg.hasInit, arg.hasStart)]
    {
      if name in components {
        return Pass;
      }
      if arg.Ctor? && !arg.extendsComponent {
        return Fail("Invalid argument: expected Component subclass");
      }
      if arg.propertyName.None? {
        return Fail("Component lacks __propertyName__ property");
      }
      components := components[name :=
        ComponentDef(arg.propertyName.value, arg.allowMultiple, arg.hasInit, arg.hasStart)];
      return Pass;
    }
  }

  /** A component instance. */
  class Component {
    const id: string
    const def: ComponentDef
    /** `entity` has been set to the entity it was added to. */
    var attached: bool
    var isDisposed: bool

    constructor (id: string, def: ComponentDef)
      ensures this.id == id && this.def == def && !attached && !isDisposed
    {
      this.id := id;
      this.def := def;
      attached := false;
      isDisposed := false;
    }
  }

  /** A call of one of a component's own hooks. */
  datatype Hook = Inited(c: Component) | Started(c: Component) | Enabled(c: Component)
                | Disabled(c: Component) | Disposed(c: Component)

  /** An entity property holding components: one instance, or an array of them. */
  datatype Prop = Single(c: Component) | Multiple(cs: seq<Component>)

  // ---------------------------------------------------------------------
  // Splitting the component string.

  /** The characters `\s` matches, restricted to ASCII. */
  predicate IsSpace(ch: char)
  {
    ch == ' ' || ch == '\t' || ch == '\n' || ch == '\r' || ch == '\U{000B}' || ch == '\U{000C}'
  }

  function TrimStart(s: string): (r: string)
    ensures |r| <= |s| && (r != [] ==> !IsSpace(r[0]))
    ensures forall ch :: ch in r ==> ch in s
  {
    if s != [] && IsSpace(s[0]) then TrimStart(s[1..]) else s
  }

  function TrimEnd(s: string): (r: string)
    ensures |r| <= |s| && (r != [] ==> !IsSpace(r[|r| - 1]))
    ensures forall ch :: ch in r ==> ch in s
  {
    if s != [] && IsSpace(s[|s| - 1]) then TrimEnd(s[..|s| - 1]) else s
  }

  /**
   * `split(/\s*,\s*\/)`: split on every comma and drop the whitespace next
   * to each comma (not at the two ends of the string).
   */
  function SplitList(s: string): (ids: seq<string>)
    ensures |ids| == |SplitOn(s, ',')|
    ensures forall i :: 0 <= i < |ids| ==> ',' !in ids[i]
  {
    var pieces := SplitOn(s, ',');
    seq(|pieces|, i requires 0 <= i < |pieces| =>
      var p := if i > 0 then TrimStart(pieces[i]) else pieces[i];
      if i < |pieces| - 1 then TrimEnd(p) else p)
  }

  /** The component ids `addComponent` works through. */
  function ComponentIds(args: seq<string>): seq<string>
    requires |args| >= 1
  {
    if |args| > 1 then args
    else if ',' in args[0] then SplitList(args[0])
    else [args[0]]
  }

  // ---------------------------------------------------------------------
  // What a call of `addComponent` decides, on values.

  /**
   * The ids added so far, which property names are taken (true: by an
   * array of allow-multiple components), and the error, once one is thrown.
   */
  datatype Plan = Plan(ids: seq<string>, shape: map<string, bool>, error: Option<string>)

  /** Which property names hold an array and which a single component. */
  function Shape(props: map<string, Prop>): map<string, bool>
  {
    map k | k in props :: props[k].Multiple?
  }

  /** What `addComponent` does with one id, given which property names are taken. */
  datatype Decision = Skip | Add(shape: map<string, bool>) | Throw(msg: string)

  function Decide(reg: map<string, ComponentDef>, shape: map<string, bool>, id: string): Decision
  {
    if id == "" then Skip
    else if id !in reg then Throw("Component \"" + id + "\" not found")
    else
      var def := reg[id];
      var name := def.propertyName;
      if def.allowMultiple then
        if name !in shape then Add(shape[name := true])
        else if shape[name] then Add(shape)
        // an array push on a single component instance
        else Throw("TypeError: push is not a function")
      else if name in shape then Skip
      else Add(shape[name := false])
  }

  function PlanStep(reg: map<string, ComponentDef>, st: Plan, id: string): Plan
  {
    if st.error.Some? then st
    else match Decide(reg, st.shape, id)
      case Skip => st
      case Add(shape) => Plan(st.ids + [id], shape, None)
      case Throw(msg) => st.(error := Some(msg))
  }

  function PlanAll(reg: map<string, ComponentDef>, shape: map<string, bool>, ids: seq<string>): Plan
  {
    if ids == [] then Plan([], shape, None)
    else PlanStep(reg, PlanAll(reg, shape, ids[..|ids| - 1]), ids[|ids| - 1])
  }

  /** The ids the components were instantiated from. */
  function IdsOf(cs: seq<Component>): (ids: seq<string>)
    ensures |ids| == |cs| && forall i :: 0 <= i < |cs| ==> ids[i] == cs[i].id
  {
    seq(|cs|, i requires 0 <= i < |cs| => cs[i].id)
  }

  /** The entity's properties once component `c` is put in place. */
  function PropStep(m: map<string, Prop>, c: Component): map<string, Prop>
  {
    var name := c.def.propertyName;
    if c.def.allowMultiple then
      if name in m && m[name].Multiple? then m[name := Multiple(m[name].cs + [c])]
      else m[name := Multiple([c])]
    else m[name := Single(c)]
  }

  /** The entity's properties after the given components were put in place. */
  function PropsAfter(props: map<string, Prop>, added: seq<Component>): map<string, Prop>
  {
    if added == [] then props
    else PropStep(PropsAfter(props, added[..|added| - 1]), added[|added| - 1])
  }

  function Inits(cs: seq<Component>): seq<Hook>
  {
    if cs == [] then []
    else Inits(cs[..|cs| - 1]) + (if cs[|cs| - 1].def.hasInit then [Inited(cs[|cs| - 1])] else [])
  }

  function Starts(cs: seq<Component>): seq<Hook>
  {
    if cs == [] then []
    else Starts(cs[..|cs| - 1]) + (if cs[|cs| - 1].def.hasStart then [Started(cs[|cs| - 1])] else [])
  }

  /** Every `init` hook of a call is logged, in addition order, before any `start`. */
  lemma {:induction false} InitsThenStarts(cs: seq<Component>)
    ensures forall h :: h in Inits(cs) ==> h.Inited? && h.c in cs && h.c.def.hasInit
    ensures forall h :: h in Starts(cs) ==> h.Started? && h.c in cs && h.c.def.hasStart
    ensures forall c :: c in cs && c.def.hasStart ==> Started(c) in Starts(cs)
    ensures forall c :: c in cs && c.def.hasInit ==> Inited(c) in Inits(cs)
  {
    if cs != [] {
      InitsThenStarts(cs[..|cs| - 1]);
      assert cs == cs[..|cs| - 1] + [cs[|cs| - 1]];
    }
  }

  /**
   * A list of empty or known single-instance ids never throws: a throw
   * needs an unknown id, or an allow-multiple component whose property
   * already holds a single instance.
   */
  lemma {:induction false} PlanErrors(reg: map<string, ComponentDef>, shape: map<string, bool>, ids: seq<string>)
    requires forall i :: 0 <= i < |ids| ==> ids[i] == "" || (ids[i] in reg && !reg[ids[i]].allowMultiple)
    ensures PlanAll(reg, shape, ids).error.None?
  {
    if ids != [] {
      var init := ids[..|ids| - 1];
      assert forall i :: 0 <= i < |init| ==> init[i] == ids[i];
      PlanErrors(reg, shape, init);
    }
  }

  /** The plan for one more id is one more step. */
  lemma PlanSnoc(reg: map<string, ComponentDef>, shape: map<string, bool>, ids: seq<string>, n: nat)
    requires n < |ids|
    ensures PlanAll(reg, shape, ids[..n + 1]) == PlanStep(reg, PlanAll(reg, shape, ids[..n]), ids[n])
  {
    assert ids[..n + 1][..n] == ids[..n];
  }

  /** Once the plan has thrown, later ids change nothing. */
  lemma {:induction false} PlanStuck(reg: map<string, ComponentDef>, shape: map<string, bool>, ids: seq<string>, k: nat)
    requires k <= |ids|
    requires PlanAll(reg, shape, ids[..k]).error.Some?
    ensures PlanAll(reg, shape, ids) == PlanAll(reg, shape, ids[..k])
    decreases |ids|
  {
    if k < |ids| {
      var init := ids[..|ids| - 1];
      assert init[..k] == ids[..k];
      PlanStuck(reg, shape, init, k);
    } else {
      assert ids[..k] == ids;
    }
  }

  /**
   * A single-instance component lands only on a free property name, and an
   * array property name stays an array: names already taken keep their kind.
   */
  lemma {:induction false} PlanKeepsShape(reg: map<string, ComponentDef>, shape: map<string, bool>, ids: seq<string>)
    ensures var p := PlanAll(reg, shape, ids);
      shape.Keys <= p.shape.Keys && forall k :: k in shape ==> p.shape[k] == shape[k]
    ensures var p := PlanAll(reg, shape, ids);
      forall i :: 0 <= i < |p.ids| ==> p.ids[i] in ids && p.ids[i] in reg
  {
    if ids != [] {
      PlanKeepsShape(reg, shape, ids[..|ids| - 1]);
    }
  }

  class Entity {
    var props: map<string, Prop>
    /** `__components__`, in the order the components were added. */
    var components: seq<Component>
    /** The component hooks called through this entity, in order. */
    var log: seq<Hook>

    constructor ()
      ensures props == map[] && components == [] && log == []
    {
      props := map[];
      components := [];
      log := [];
    }

    /**
     * `addComponent`: instantiate each id in turn under its property name,
     * run `init` on each one added, then `start` on all of them, then append
     * them to `__components__`. A throw leaves the components added before it
     * on their properties, already initialised but never started and not in
     * `__components__`.
     */
    method AddComponent(reg: Registry, args: seq<string>) returns (out: Outcome, ghost added: seq<Component>)
      requires |args| >= 1
      modifies this
      ensures var p := PlanAll(reg.components, Shape(old(props)), ComponentIds(args));
        IdsOf(added) == p.ids && Shape(props) == p.shape
        && out == (if p.error.None? then Pass else Fail(p.error.value))
      ensures forall c :: c in added ==>
        (fresh(c) && c.attached && !c.isDisposed && c.id in reg.components && c.def == reg.components[c.id])
      ensures props == PropsAfter(old(props), added)
      ensures out.Pass? ==> log == old(log) + Inits(added) + Starts(added) && components == old(components) + added
      ensures out.Fail? ==> log == old(log) + Inits(added) && components == old(components)
    {
      var ids := ComponentIds(args);
      var newComponents, err := AddAll(reg, ids);
      added := newComponents;
      if err.Some? {
        return Fail(err.value), added;
      }
      StartAll(newComponents);
      components := components + newComponents;
      return Pass, added;
    }

    /**
     * The first loop of `addComponent`: every id in turn, stopping at the
     * first throw; `newComponents` collects those added.
     */
    method AddAll(reg: Registry, ids: seq<string>) returns (newComponents: seq<Component>, err: Option<string>)
      modifies this
      ensures var p := PlanAll(reg.components, Shape(old(props)), ids);
        IdsOf(newComponents) == p.ids && Shape(props) == p.shape && err == p.error
      ensures forall c :: c in newComponents ==>
        (fresh(c) && c.attached && !c.isDisposed && c.id in reg.components && c.def == reg.components[c.id])
      ensures props == PropsAfter(old(props), newComponents)
      ensures log == old(log) + Inits(newComponents) && components == old(components)
    {
      newComponents := [];
      err := None;
      ghost var shape0 := Shape(props);
      ghost var plan := Plan([], shape0, None);
      var n := 0;
      while n < |ids|
        invariant 0 <= n <= |ids|
        invariant plan == PlanAll(reg.components, shape0, ids[..n])
        invariant err.None? && plan.error.None?
        invariant Added(reg, plan, newComponents, old(props), old(log))
        invariant forall c :: c in newComponents ==> fresh(c)
        invariant components == old(components)
      {
        PlanSnoc(reg.components, shape0, ids, n);
        newComponents, err, plan := AddStep(reg, ids[n], plan, newComponents, old(props), old(log));
        if err.Some? {
          PlanStuck(reg.components, shape0, ids, n + 1);
          return;
        }
        n := n + 1;
      }
      assert ids[..n] == ids;
    }

    /** What the first loop of `addComponent` has done so far. */
    ghost predicate Added(reg: Registry, plan: Plan, cs: seq<Component>, props0: map<string, Prop>, log0: seq<Hook>)
      reads this, reg, cs
    {
      && IdsOf(cs) == plan.ids && Shape(props) == plan.shape
      && (forall c :: c in cs ==>
          (c.attached && !c.isDisposed && c.id in reg.components && c.def == reg.components[c.id]))
      && props == PropsAfter(props0, cs)
      && log == log0 + Inits(cs)
    }

    /** One pass of the first loop of `addComponent`. */
    method AddStep(reg: Registry, id: string, ghost plan: Plan, cs: seq<Component>,
                   ghost props0: map<string, Prop>, ghost log0: seq<Hook>)
      returns (cs': seq<Component>, err: Option<string>, ghost plan': Plan)
      requires plan.error.None? && Added(reg, plan, cs, props0, log0)
      modifies this
      ensures plan' == PlanStep(reg.components, plan, id) && err == plan'.error
      ensures err.None? ==> Added(reg, plan', cs', props0, log0)
      ensures err.Some? ==> Added(reg, plan, cs', props0, log0) && cs' == cs
      ensures forall c :: c in cs' ==> c in cs || fresh(c)
      ensures components == old(components)
    {
      var c;
      c, err := AddOne(reg, id);
      plan' := PlanStep(reg.components, plan, id);
      cs' := cs;
      if c != null {
        cs' := cs + [c];
        assert cs'[..|cs'| - 1] == cs;
        assert IdsOf(cs') == IdsOf(cs) + [id];
      }
    }

    /** The second loop of `addComponent`: `start` each new component, in order. */
    method StartAll(cs: seq<Component>)
      modifies this
      ensures log == old(log) + Starts(cs)
      ensures props == old(props) && components == old(components)
    {
      var m := 0;
      while m < |cs|
        invariant 0 <= m <= |cs|
        invariant log == old(log) + Starts(cs[..m])
        invariant props == old(props) && components == old(components)
      {
        var c := cs[m];
        assert cs[..m + 1] == cs[..m] + [c];
        if c.def.hasStart {
          log := log + [Started(c)];
        }
        m := m + 1;
      }
      assert cs[..m] == cs;
    }

    /**
     * One id of `addComponent`: instantiate it and put it on its property,
     * unless it is empty or its single-instance property is taken; run its
     * `init` when it is added.
     */
    method AddOne(reg: Registry, id: string) returns (c: Component?, err: Option<string>)
      modifies this
      ensures match Decide(reg.components, Shape(old(props)), id)
        case Skip => c == null && err.None? && props == old(props) && log == old(log)
        case Throw(msg) => c == null && err == Some(msg) && props == old(props) && log == old(log)
        case Add(shape) => (c != null && err.None? && Shape(props) == shape
          && props == PropStep(old(props), c)
          && log == old(log) + (if c.def.hasInit then [Inited(c)] else []))
      ensures c != null ==>
        fresh(c) && c.attached && !c.isDisposed && c.id == id && id in reg.components && c.def == reg.components[id]
      ensures components == old(components)
    {
      if id == "" {
        return null, None;
      }
      if id !in reg.components {
        return null, Some("Component \"" + id + "\" not found");
      }
      var def := reg.components[id];
      var name := def.propertyName;
      if !def.allowMultiple && name in props {
        return null, None;
      }
      if def.allowMultiple && name in props && props[name].Single? {
        return null, Some("TypeError: push is not a function");
      }
      c := new Component(id, def);
      if def.allowMultiple {
        if name !in props {
          props := props[name := Multiple([c])];
        } else {
          props := props[name := Multiple(props[name].cs + [c])];
        }
      } else {
        props := props[name := Single(c)];
      }
      c.attached := true;
      if def.hasInit {
        log := log + [Inited(c)];
      }
      err := None;
    }

    /** `enable`: call `enable` on every component, in order. */
    method Enable()
      modifies this
      ensures log == old(log) + EnableHooks(components)
      ensures props == old(props) && components == old(components)
    {
      var n := 0;
      while n < |components|
        invariant 0 <= n <= |components|
        invariant log == old(log) + EnableHooks(components[..n])
        invariant props == old(props) && components == old(components)
      {
        assert components[..n + 1] == components[..n] + [components[n]];
        log := log + [Enabled(components[n])];
        n := n + 1;
      }
      assert components[..n] == components;
    }

    /** `disable`: call `disable` on every component, in order. */
    method Disable()
      modifies this
      ensures log == old(log) + DisableHooks(components)
      ensures props == old(props) && components == old(components)
    {
      var n := 0;
      while n < |components|
        invariant 0 <= n <= |components|
        invariant log == old(log) + DisableHooks(components[..n])
        invariant props == old(props) && components == old(components)
      {
        assert components[..n + 1] == components[..n] + [components[n]];
        log := log + [Disabled(components[n])];
        n := n + 1;
      }
      assert components[..n] == components;
    }

    /**
     * `dispose`: call `dispose` on each component not disposed yet and mark
     * it disposed, so no component is disposed twice across calls.
     */
    method Dispose()
      requires Distinct(components)
      modifies this, set c | c in components
      ensures log == old(log) + DisposeHooks(components, old(set c | c in components && c.isDisposed))
      ensures forall c :: c in components ==> c.isDisposed
      ensures props == old(props) && components == old(components)
    {
      ghost var done0 := set c | c in components && c.isDisposed;
      var n := 0;
      while n < |components|
        invariant 0 <= n <= |components|
        invariant props == old(props) && components == old(components)
        invariant log == old(log) + DisposeHooks(components[..n], done0)
        invariant forall i :: 0 <= i < n ==> components[i].isDisposed
        invariant forall i :: n <= i < |components| ==> components[i].isDisposed == (components[i] in done0)
      {
        var c := components[n];
        assert components[..n + 1] == components[..n] + [c];
        if !c.isDisposed {
          log := log + [Disposed(c)];
          c.isDisposed := true;
        }
        n := n + 1;
      }
      assert components[..n] == components;
    }
  }

  function EnableHooks(cs: seq<Component>): (hs: seq<Hook>)
    ensures |hs| == |cs| && forall i :: 0 <= i < |cs| ==> hs[i] == Enabled(cs[i])
  {
    if cs == [] then [] else EnableHooks(cs[..|cs| - 1]) + [Enabled(cs[|cs| - 1])]
  }

  function DisableHooks(cs: seq<Component>): (hs: seq<Hook>)
    ensures |hs| == |cs| && forall i :: 0 <= i < |cs| ==> hs[i] == Disabled(cs[i])
  {
    if cs == [] then [] else DisableHooks(cs[..|cs| - 1]) + [Disabled(cs[|cs| - 1])]
  }

  /** One `Dispose` hook per component not in `done`, in order. */
  function DisposeHooks(cs: seq<Component>, done: set<Component>): seq<Hook>
  {
    if cs == [] then []
    else DisposeHooks(cs[..|cs| - 1], done) + (if cs[|cs| - 1] in done then [] else [Disposed(cs[|cs| - 1])])
  }

  /** Components already disposed get no second `Dispose` hook. */
  lemma {:induction false} DisposeHooksSkipDone(cs: seq<Component>, done: set<Component>)
    ensures forall h :: h in DisposeHooks(cs, done) ==> h.Disposed? && h.c in cs && h.c !in done
    ensures (forall c :: c in cs ==> c in done) ==> DisposeHooks(cs, done) == []
  {
    if cs != [] {
      DisposeHooksSkipDone(cs[..|cs| - 1], done);
    }
  }

  /** A second `dispose` calls no hook at all. */
  method DisposeTwice(e: Entity)
    requires Distinct(e.components)
    modifies e, set c | c in e.components
    ensures e.log == old(e.log) + DisposeHooks(e.components, old(set c | c in e.components && c.isDisposed))
  {
    e.Dispose();
    ghost var mid := e.log;
    label Mid:
    e.Dispose();
    DisposeHooksSkipDone(e.components, old@Mid(set c | c in e.components && c.isDisposed));
    assert e.log == mid;
  }

  /** `createEntity`: a new entity, with the given components added when there are any. */
  method CreateEntity(reg: Registry, args: seq<string>) returns (e: Entity, out: Outcome)
    ensures fresh(e)
    ensures args == [] ==> out == Pass && e.props == map[] && e.components == [] && e.log == []
    ensures args != [] ==> var p := PlanAll(reg.components, map[], ComponentIds(args));
      out == (if p.error.None? then Pass else Fail(p.error.value))
      && IdsOf(e.components) == (if p.error.None? then p.ids else [])
  {
    e := new Entity();
    out := Pass;
    if |args| > 0 {
      ghost var added;
      assert Shape(e.props) == map[];
      out, added := e.AddComponent(reg, args);
    }
  }
}
