/** The composer: the function `index.js` exports. It validates its
    arguments, walks the modules of a directory in listing order, resolves
    each module's export into a property map (calling it with a scope when it
    is a function), and assigns every property onto the handle, raising on
    the first name the handle already owns. On success it attaches the
    bundler marker property `__modclass`. */
module Composer {
  import opened Text

  /** The name of the marker property (PROPERTY_TITLE in the source). */
  const MARKER: string := "__modclass"

  /** A property value. A function is kept as its source text (what
      `String(fn)` gives); any other value as the text that template
      interpolation gives it; `MarkerObject` is the `{ createBundle }` object
      attached under MARKER. */
  datatype Value = Func(source: string) | Data(text: string) | MarkerObject

  datatype Prop = Prop(key: string, value: Value)

  /** What a function export is called with: the handle itself, or the
      entry of the scope map for its module. */
  datatype Scope = WholeHandle | Restricted(obj: Value)

  /** A module's export, by the constructor test of the source: a function,
      a plain object (its own enumerable properties, in order), or any other
      value. */
  datatype Export =
    | Callable(call: Scope -> seq<Prop>)
    | PlainObject(props: seq<Prop>)
    | Other(value: Value)

  /** One directory entry and what loading it exports. */
  datatype Module = Module(name: string, exported: Export)

  /** The scope-map argument: a plain object, a truthy value of another
      constructor, or a falsy value that owns no properties. */
  datatype ScopeArg =
    | PlainMap(entries: map<string, Value>)
    | OtherObject(constructorName: string)
    | Falsy

  /** What `fs.statSync(subclassPath)` finds, with the directory listing. */
  datatype DirStatus = Missing | NotDirectory | Directory(entries: seq<Module>)

  datatype ComposeError =
    | NoSuchPath
    | NotADirectory
    | InvalidScopeFormat(constructorName: string)
    | DuplicateProperty(moduleName: string, property: string)

  datatype Outcome = Done | Raised(error: ComposeError)

  predicate Distinct(keys: seq<string>)
  {
    forall i, j :: 0 <= i < j < |keys| ==> keys[i] != keys[j]
  }

  /** The own properties of an object: names in enumeration order, and
      their values. */
  datatype Props = Props(keys: seq<string>, vals: map<string, Value>)
  {
    ghost predicate Valid()
    {
      Distinct(keys) && vals.Keys == set k | k in keys
    }

    /** `obj[key] = v`: a new name is appended to the enumeration order, an
        owned name keeps its place and takes the new value. */
    function Put(key: string, v: Value): (r: Props)
      ensures Valid() ==> r.Valid()
      ensures r.vals == vals[key := v]
      ensures r.keys == if key in vals then keys else keys + [key]
    {
      if key in vals then Props(keys, vals[key := v]) else Props(keys + [key], vals[key := v])
    }
  }

  /** The object being composed, updated in place. */
  class Handle {
    var keys: seq<string>
    var vals: map<string, Value>

    function State(): Props
      reads this
    {
      Props(keys, vals)
    }

    ghost predicate Valid()
      reads this
    {
      State().Valid()
    }

    constructor (initial: Props)
      requires initial.Valid()
      ensures Valid() && State() == initial
    {
      keys := initial.keys;
      vals := initial.vals;
    }

    /** `handle[key] = v`. */
    method Assign(key: string, v: Value)
      requires Valid()
      modifies this
      ensures Valid() && State() == old(State()).Put(key, v)
    {
      if key !in vals {
        keys := keys + [key];
      }
      vals := vals[key := v];
    }
  }

  /** The scope a function export is called with: the scope map's own entry
      for the module's name, or else the handle. */
  function ChooseScope(scopes: ScopeArg, name: string): (s: Scope)
    ensures s.Restricted? <==> scopes.PlainMap? && name in scopes.entries
    ensures s.Restricted? ==> s.obj == scopes.entries[name]
  {
    if scopes.PlainMap? && name in scopes.entries then Restricted(scopes.entries[name]) else WholeHandle
  }

  /** The property map a module contributes: a function's result for the
      chosen scope, a plain object unchanged, any other value wrapped as the
      single property named after the module. */
  function Resolve(m: Module, scope: Scope): (r: seq<Prop>)
    ensures m.exported.Callable? ==> r == m.exported.call(scope)
    ensures m.exported.PlainObject? ==> r == m.exported.props
    ensures m.exported.Other? ==> r == [Prop(m.name, m.exported.value)]
  {
    match m.exported
    case Callable(call) => call(scope)
    case PlainObject(props) => props
    case Other(value) => [Prop(m.name, value)]
  }

  /** One property assignment the composer is about to make. */
  datatype Assignment = Assignment(moduleName: string, key: string, value: Value)

  /** The assignments that a module named `name` with properties `ps`
      makes, in the properties' order. */
  function Assignments(name: string, ps: seq<Prop>): (r: seq<Assignment>)
    ensures |r| == |ps|
    ensures forall i :: 0 <= i < |r| ==> r[i] == Assignment(name, ps[i].key, ps[i].value)
  {
    seq(|ps|, i requires 0 <= i < |ps| => Assignment(name, ps[i].key, ps[i].value))
  }

  /** The assignments one module contributes. */
  function Segment(m: Module, scopes: ScopeArg): seq<Assignment>
  {
    Assignments(m.name, Resolve(m, ChooseScope(scopes, m.name)))
  }

  /** Every assignment of a composition, module after module. */
  function Plan(mods: seq<Module>, scopes: ScopeArg): seq<Assignment>
  {
    if mods == [] then [] else Segment(mods[0], scopes) + Plan(mods[1..], scopes)
  }

  function KeysOf(xs: seq<Assignment>): seq<string>
  {
    seq(|xs|, i requires 0 <= i < |xs| => xs[i].key)
  }

  /** No assignment targets a name that the handle owns or that an earlier
      assignment took. */
  predicate Fresh(p: Props, xs: seq<Assignment>)
  {
    Distinct(KeysOf(xs)) && forall i :: 0 <= i < |xs| ==> xs[i].key !in p.vals
  }

  datatype RunResult = Merged(props: Props) | Collided(props: Props, at: Assignment)

  /** The collision-checked merge: assignments are made one at a time and
      the first one whose name is already owned stops the run, leaving what
      was assigned before it in place. */
  function Run(p: Props, xs: seq<Assignment>): RunResult
    decreases |xs|
  {
    if xs == [] then Merged(p)
    else if xs[0].key in p.vals then Collided(p, xs[0])
    else Run(p.Put(xs[0].key, xs[0].value), xs[1..])
  }

  datatype Composition = Composition(props: Props, outcome: Outcome)

  /** What a call of the composer does to a handle whose properties are `p`:
      the two validations first, then the merge, then the marker. */
  function ComposeSpec(p: Props, scopes: ScopeArg, dir: DirStatus, enableBundler: bool): (r: Composition)
    ensures !dir.Directory? || scopes.OtherObject? ==> r.props == p && r.outcome.Raised?
    ensures dir.Missing? ==> r.outcome == Raised(NoSuchPath)
    ensures dir.NotDirectory? ==> r.outcome == Raised(NotADirectory)
    ensures dir.Directory? && scopes.OtherObject? ==> r.outcome == Raised(InvalidScopeFormat(scopes.constructorName))
  {
    match dir
    case Missing => Composition(p, Raised(NoSuchPath))
    case NotDirectory => Composition(p, Raised(NotADirectory))
    case Directory(mods) =>
      if scopes.OtherObject? then Composition(p, Raised(InvalidScopeFormat(scopes.constructorName)))
      else
        match Run(p, Plan(mods, scopes))
        case Collided(q, at) => Composition(q, Raised(DuplicateProperty(at.moduleName, at.key)))
        case Merged(q) => Composition(if enableBundler then q.Put(MARKER, MarkerObject) else q, Done)
  }

  /** The assignments of one module onto `h`, stopping at the first name
      `h` already owns, which is returned. `later` stands for the
      assignments of the modules still to come. */
  method AssignAll(h: Handle, name: string, props: seq<Prop>, ghost later: seq<Assignment>)
    returns (clash: Option<string>)
    requires h.Valid()
    modifies h
    ensures h.Valid()
    ensures clash.None? ==> Run(old(h.State()), Assignments(name, props) + later) == Run(h.State(), later)
    ensures clash.Some? ==>
      var r := Run(old(h.State()), Assignments(name, props) + later);
      r.Collided? && r.props == h.State() && r.at.moduleName == name && r.at.key == clash.value
  {
    ghost var start := h.State();
    ghost var seg := Assignments(name, props);
    assert seg[0..] + later == seg + later;
    var j := 0;
    while j < |props|
      invariant 0 <= j <= |props|
      invariant h.Valid()
      invariant Run(start, seg + later) == Run(h.State(), seg[j..] + later)
    {
      var key := props[j].key;
      assert (seg[j..] + later)[0] == Assignment(name, key, props[j].value);
      if key in h.vals {
        return Some(key);
      }
      assert (seg[j..] + later)[1..] == seg[j + 1..] + later;
      h.Assign(key, props[j].value);
      j := j + 1;
    }
    assert seg[j..] + later == later;
    return None;
  }

  /** The composer, run on the handle `h`. */
  method Compose(h: Handle, scopes: ScopeArg, dir: DirStatus, enableBundler: bool) returns (outcome: Outcome)
    requires h.Valid()
    modifies h
    ensures h.Valid()
    ensures Composition(h.State(), outcome) == ComposeSpec(old(h.State()), scopes, dir, enableBundler)
  {
    if dir.Missing? {
      return Raised(NoSuchPath);
    }
    if dir.NotDirectory? {
      return Raised(NotADirectory);
    }
    if scopes.OtherObject? {
      return Raised(InvalidScopeFormat(scopes.constructorName));
    }
    var mods := dir.entries;
    ghost var start := h.State();
    assert mods[0..] == mods;
    var i := 0;
    while i < |mods|
      invariant 0 <= i <= |mods|
      invariant h.Valid()
      invariant Run(start, Plan(mods, scopes)) == Run(h.State(), Plan(mods[i..], scopes))
    {
      var m := mods[i];
      var scope := ChooseScope(scopes, m.name);
      var props := Resolve(m, scope);
      PlanFrom(mods, i, scopes);
      var clash := AssignAll(h, m.name, props, Plan(mods[i + 1..], scopes));
      if clash.Some? {
        return Raised(DuplicateProperty(m.name, clash.value));
      }
      i := i + 1;
    }
    assert mods[i..] == [];
    if enableBundler {
      h.Assign(MARKER, MarkerObject);
    }
    return Done;
  }

  /** The assignments from module `i` on are those of module `i` followed
      by those of the modules after it. */
  lemma PlanFrom(mods: seq<Module>, i: nat, scopes: ScopeArg)
    requires i < |mods|
    ensures Plan(mods[i..], scopes) == Segment(mods[i], scopes) + Plan(mods[i + 1..], scopes)
  {
    assert mods[i..][1..] == mods[i + 1..];
  }

  lemma KeysOfTail(xs: seq<Assignment>)
    requires xs != []
    ensures KeysOf(xs[1..]) == KeysOf(xs)[1..]
    ensures KeysOf(xs) == [xs[0].key] + KeysOf(xs[1..])
  {
  }

  /** The merge succeeds exactly when every assigned name is new: not owned
      by the handle and not taken by an earlier assignment. */
  lemma {:induction false} RunMergedIffFresh(p: Props, xs: seq<Assignment>)
    decreases |xs|
    ensures Run(p, xs).Merged? <==> Fresh(p, xs)
  {
    if xs != [] {
      KeysOfTail(xs);
      if xs[0].key !in p.vals {
        var p' := p.Put(xs[0].key, xs[0].value);
        RunMergedIffFresh(p', xs[1..]);
        if Fresh(p', xs[1..]) {
          forall i, j | 0 <= i < j < |xs| ensures KeysOf(xs)[i] != KeysOf(xs)[j] {
            if i > 0 {
              assert KeysOf(xs[1..])[i - 1] != KeysOf(xs[1..])[j - 1];
            } else {
              assert xs[1..][j - 1].key !in p'.vals;
            }
          }
        }
        if Fresh(p, xs) {
          forall i | 0 <= i < |xs[1..]| ensures xs[1..][i].key !in p'.vals {
            assert KeysOf(xs)[0] != KeysOf(xs)[i + 1];
          }
          forall i, j | 0 <= i < j < |xs[1..]| ensures KeysOf(xs[1..])[i] != KeysOf(xs[1..])[j] {
            assert KeysOf(xs)[i + 1] != KeysOf(xs)[j + 1];
          }
        }
      } else {
        assert !Fresh(p, xs) by { assert xs[0].key in p.vals; }
      }
    }
  }

  /** The merge keeps the handle's properties well formed, whether it
      completes or stops at a collision. */
  lemma {:induction false} RunValid(p: Props, xs: seq<Assignment>)
    decreases |xs|
    requires p.Valid()
    ensures Run(p, xs).props.Valid()
  {
    if xs != [] && xs[0].key !in p.vals {
      RunValid(p.Put(xs[0].key, xs[0].value), xs[1..]);
    }
  }

  /** A successful merge appends the assigned names, in order, to the
      enumeration order of the handle. */
  lemma {:induction false} RunMergedKeys(p: Props, xs: seq<Assignment>)
    decreases |xs|
    requires Run(p, xs).Merged?
    ensures Run(p, xs).props.keys == p.keys + KeysOf(xs)
  {
    if xs == [] {
      assert KeysOf(xs) == [];
      assert p.keys + [] == p.keys;
    } else {
      KeysOfTail(xs);
      var p' := p.Put(xs[0].key, xs[0].value);
      RunMergedKeys(p', xs[1..]);
      assert p'.keys + KeysOf(xs[1..]) == p.keys + ([xs[0].key] + KeysOf(xs[1..]));
    }
  }

  /** A successful merge keeps every value the handle had and binds every
      assigned name to its assigned value. */
  lemma {:induction false} RunMergedValues(p: Props, xs: seq<Assignment>)
    decreases |xs|
    requires Run(p, xs).Merged?
    ensures var q := Run(p, xs).props;
      && (forall k :: k in p.vals ==> k in q.vals && q.vals[k] == p.vals[k])
      && (forall i :: 0 <= i < |xs| ==> xs[i].key in q.vals && q.vals[xs[i].key] == xs[i].value)
  {
    if xs != [] {
      var p' := p.Put(xs[0].key, xs[0].value);
      RunMergedValues(p', xs[1..]);
      RunMergedIffFresh(p', xs[1..]);
      KeysOfTail(xs);
      var q := Run(p, xs).props;
      assert q == Run(p', xs[1..]).props;
      forall i | 0 <= i < |xs| ensures xs[i].key in q.vals && q.vals[xs[i].key] == xs[i].value {
        if i > 0 {
          assert xs[1..][i - 1] == xs[i];
        } else {
          assert forall j :: 0 <= j < |xs[1..]| ==> xs[1..][j].key != xs[0].key;
        }
      }
    }
  }

  /** A successful merge is strictly additive: the handle keeps every
      property it had, gains exactly the assigned names, each bound to its
      assigned value, and the new names follow the old ones in enumeration
      order. */
  lemma RunMerged(p: Props, xs: seq<Assignment>)
    requires p.Valid() && Run(p, xs).Merged?
    ensures var q := Run(p, xs).props;
      && q.Valid()
      && q.keys == p.keys + KeysOf(xs)
      && (forall k :: k in p.vals ==> k in q.vals && q.vals[k] == p.vals[k])
      && (forall i :: 0 <= i < |xs| ==> xs[i].key in q.vals && q.vals[xs[i].key] == xs[i].value)
      && (forall k :: k in q.vals <==> k in p.vals || k in KeysOf(xs))
  {
    RunValid(p, xs);
    RunMergedKeys(p, xs);
    RunMergedValues(p, xs);
  }

  /** A collision stops the merge at the first assignment `xs[c]` whose
      name is owned, by the handle or by an earlier assignment; the state it
      leaves is what the assignments before it made, and nothing after it
      is applied. */
  lemma {:induction false} RunCollided(p: Props, xs: seq<Assignment>) returns (c: nat)
    decreases |xs|
    requires Run(p, xs).Collided?
    ensures c < |xs| && Run(p, xs).at == xs[c]
    ensures xs[c].key in p.vals || xs[c].key in KeysOf(xs[..c])
    ensures Run(p, xs[..c]) == Merged(Run(p, xs).props)
  {
    if xs[0].key in p.vals {
      c := 0;
      assert xs[..0] == [];
    } else {
      var p' := p.Put(xs[0].key, xs[0].value);
      var c' := RunCollided(p', xs[1..]);
      c := c' + 1;
      assert xs[..c][1..] == xs[1..][..c'];
      assert xs[..c] != [] && xs[..c][0] == xs[0];
      KeysOfTail(xs[..c]);
      if xs[c].key !in p.vals && xs[c].key != xs[0].key {
        assert xs[c].key in KeysOf(xs[1..][..c']);
      }
    }
  }

  /** Modules are merged one after the other: the assignments of a
      directory listing split at any point into those of its two parts. */
  lemma {:induction false} PlanConcat(a: seq<Module>, b: seq<Module>, scopes: ScopeArg)
    decreases |a|
    ensures Plan(a + b, scopes) == Plan(a, scopes) + Plan(b, scopes)
  {
    if a == [] {
      assert a + b == b;
    } else {
      assert (a + b)[1..] == a[1..] + b;
      PlanConcat(a[1..], b, scopes);
    }
  }

  /** A composition over a readable directory completes exactly when no
      module's property name is owned already; it then leaves every earlier
      property as it was (except a `__modclass` it replaces), adds exactly
      the modules' properties in order with their values, and adds the
      marker if and only if the bundler is enabled. */
  lemma ComposeDone(p: Props, scopes: ScopeArg, mods: seq<Module>, enableBundler: bool)
    requires p.Valid()
    ensures var r := ComposeSpec(p, scopes, Directory(mods), enableBundler);
      r.outcome == Done <==> !scopes.OtherObject? && Fresh(p, Plan(mods, scopes))
    ensures var r := ComposeSpec(p, scopes, Directory(mods), enableBundler);
      var plan := Plan(mods, scopes);
      r.outcome == Done ==>
        && r.props.Valid()
        && (forall k :: k in p.vals && k != MARKER ==> k in r.props.vals && r.props.vals[k] == p.vals[k])
        && (forall i :: 0 <= i < |plan| && plan[i].key != MARKER ==> plan[i].key in r.props.vals && r.props.vals[plan[i].key] == plan[i].value)
        && (forall k :: k in r.props.vals <==> k in p.vals || k in KeysOf(plan) || (enableBundler && k == MARKER))
        && (enableBundler ==> r.props.vals[MARKER] == MarkerObject)
        && r.props.keys == p.keys + KeysOf(plan)
             + (if enableBundler && MARKER !in p.vals && MARKER !in KeysOf(plan) then [MARKER] else [])
  {
    var plan := Plan(mods, scopes);
    RunMergedIffFresh(p, plan);
    if !scopes.OtherObject? && Run(p, plan).Merged? {
      RunMerged(p, plan);
    }
  }

  /** A composition that meets a name the handle owns raises
      DuplicateProperty for the module and name of the first such
      assignment `plan[c]`; the handle keeps exactly what the assignments
      before it made, including earlier ones of the same module, and gets no
      marker. */
  lemma ComposeCollision(p: Props, scopes: ScopeArg, mods: seq<Module>, enableBundler: bool) returns (c: nat)
    requires p.Valid() && !scopes.OtherObject?
    requires !Fresh(p, Plan(mods, scopes))
    ensures var plan := Plan(mods, scopes);
      var r := ComposeSpec(p, scopes, Directory(mods), enableBundler);
      && c < |plan|
      && r.outcome == Raised(DuplicateProperty(plan[c].moduleName, plan[c].key))
      && (plan[c].key in p.vals || plan[c].key in KeysOf(plan[..c]))
      && Fresh(p, plan[..c])
      && r.props.keys == p.keys + KeysOf(plan[..c])
      && (forall k :: k in r.props.vals <==> k in p.vals || k in KeysOf(plan[..c]))
      && (forall k :: k in p.vals ==> r.props.vals[k] == p.vals[k])
      && (forall i :: 0 <= i < c ==> plan[i].key in r.props.vals && r.props.vals[plan[i].key] == plan[i].value)
  {
    var plan := Plan(mods, scopes);
    RunMergedIffFresh(p, plan);
    c := RunCollided(p, plan);
    var pre := plan[..c];
    RunMergedIffFresh(p, pre);
    RunMerged(p, pre);
    var q := Run(p, pre).props;
    assert ComposeSpec(p, scopes, Directory(mods), enableBundler).props == q;
    forall i | 0 <= i < c ensures plan[i].key in q.vals && q.vals[plan[i].key] == plan[i].value {
      assert pre[i] == plan[i];
    }
  }
}
