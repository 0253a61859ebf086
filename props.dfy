/** The property-context stack of src_c/ctx.cpp.  A thread has one current
    `Context`; every context points at its parent and holds a map from property
    type to property.  Creating a context pushes it (copying the parent's
    properties), destroying the current one pops it, and `set` pushes a child with
    one property replaced. */
module PropContext {
  import opened Outcomes

  /** The property classes of the program; a class is also its own map key
      (`std::type_index(typeid(P))`). */
  datatype PropClass = StringPropClass | Namespace | Henk

  /** A property object: its dynamic class and the string `StringProp::get` returns. */
  datatype Prop = Prop(cls: PropClass, value: string)

  /** A failed `assert`: the program aborts. */
  datatype Abort = AssertionFailed

  /** `Prop::As<P>()`: the property viewed as a `P`, when its dynamic class is `P`. */
  function As(p: Prop, cls: PropClass): (r: Result<Prop, Abort>)
    ensures r.Success? <==> p.cls == cls
    ensures r.Success? ==> r.value == p
  {
    if p.cls == cls then Success(p) else Failure(AssertionFailed)
  }

  /** A default-constructed `P`: `Henk()` holds "I am henk", the others the empty string. */
  function DefaultProp(cls: PropClass): (p: Prop)
    ensures p.cls == cls
    ensures p.value == if cls == Henk then "I am henk" else ""
  {
    match cls
    case Henk => Prop(Henk, "I am henk")
    case _ => Prop(cls, "")
  }

  /** The thread whose `thread_local` pointer `current_` is the current context. */
  class Thread {
    var current: Context?

    constructor ()
      ensures current == null
    {
      current := null;
    }
  }

  class Context {
    const thread: Thread
    var parent: Context?
    var props: map<PropClass, Prop>

    /** Each property is stored under its own class. */
    predicate Valid()
      reads this
    {
      forall k :: k in props ==> props[k].cls == k
    }

    /** `Context()`: the current context becomes the parent, its properties are
        copied, and the new context becomes current. */
    constructor (thread: Thread)
      modifies thread
      ensures this.thread == thread
      ensures parent == old(thread.current)
      ensures props == if old(thread.current) == null then map[] else old(thread.current.props)
      ensures thread.current == this
      ensures old(thread.current) == null || old(thread.current.Valid()) ==> Valid()
    {
      this.thread := thread;
      parent := thread.current;
      props := if thread.current == null then map[] else thread.current.props;
      new;
      thread.current := this;
    }

    /** `Context(Context&& that)`: takes `that`'s properties; when `that` is current
        the new context replaces it as current and takes over its parent, otherwise
        the current context becomes the parent and nothing else changes.  The
        moved-from map is left empty. */
    constructor Move(thread: Thread, that: Context)
      requires that.thread == thread
      modifies thread, that
      ensures this.thread == thread
      ensures props == old(that.props) && that.props == map[]
      ensures old(thread.current) == that ==>
        thread.current == this && parent == old(that.parent) && that.parent == null
      ensures old(thread.current) != that ==>
        thread.current == old(thread.current) && parent == old(thread.current) && that.parent == old(that.parent)
      ensures old(that.Valid()) ==> Valid()
    {
      this.thread := thread;
      parent := thread.current;
      props := that.props;
      new;
      that.props := map[];
      if parent == that {
        thread.current := this;
        parent := that.parent;
        that.parent := null;
      }
    }

    /** `~Context()`: pops the context when it is current, otherwise does nothing. */
    method Destroy()
      modifies thread
      ensures old(thread.current) == this ==> thread.current == parent
      ensures old(thread.current) != this ==> thread.current == old(thread.current)
    {
      if thread.current == this {
        thread.current := parent;
      }
    }

    /** `Context::current()`: the current context; a root context is created (and
        becomes current) only when there is none. */
    static method Current(thread: Thread) returns (c: Context)
      modifies thread
      ensures old(thread.current) != null ==> c == old(thread.current) && thread.current == c
      ensures old(thread.current) == null ==>
        fresh(c) && c.thread == thread && c.parent == null && c.props == map[] && thread.current == c
      ensures c.Valid() || old(thread.current) != null
    {
      if thread.current != null {
        c := thread.current;
      } else {
        c := new Context(thread);
      }
    }

    /** `try_get<P>()`: the stored value for `P`, or nothing when `P` is absent. */
    function TryGet(cls: PropClass): (r: Result<Option<string>, Abort>)
      reads this
      ensures r.Failure? <==> cls in props && props[cls].cls != cls
      ensures r == Success(None) <==> cls !in props
      ensures r.Success? && r.value.Some? ==> cls in props && r.value.value == props[cls].value
    {
      if cls in props then
        match As(props[cls], cls)
        case Success(p) => Success(Some(p.value))
        case Failure(e) => Failure(e)
      else Success(None)
    }

    /** `get<P>()`: the stored value for `P`, or else a default-constructed `P`'s value. */
    function Get(cls: PropClass): (r: Result<string, Abort>)
      reads this
      ensures r.Failure? <==> cls in props && props[cls].cls != cls
      ensures r.Success? ==> r.value == if cls in props then props[cls].value else DefaultProp(cls).value
    {
      if cls in props then
        match As(props[cls], cls)
        case Success(p) => Success(p.value)
        case Failure(e) => Failure(e)
      else Success(DefaultProp(cls).value)
    }

    /** `set<P>(p)`: a new current context whose parent is the context that was
        current, with that context's properties and `P` mapped to a new `P`
        holding `p.get()`.  The receiver is not touched. */
    method Set(cls: PropClass, value: string) returns (c: Context)
      modifies thread
      ensures fresh(c) && c.thread == thread
      ensures c.parent == old(thread.current)
      ensures c.props == (if old(thread.current) == null then map[] else old(thread.current.props))[cls := Prop(cls, value)]
      ensures thread.current == c
      ensures old(thread.current) == null || old(thread.current.Valid()) ==> c.Valid()
    {
      var local := new Context(thread);
      local.props := local.props[cls := Prop(cls, value)];
      c := new Context.Move(thread, local);
      local.Destroy();
    }
  }

  /** On a context whose properties are stored under their own classes the
      `As` assertion never fails, and `get` is `try_get` with the default as fallback. */
  lemma GetIsTryGetOrDefault(c: Context, cls: PropClass)
    requires c.Valid()
    ensures c.TryGet(cls).Success? && c.Get(cls).Success?
    ensures c.Get(cls).value == c.TryGet(cls).value.GetOr(DefaultProp(cls).value)
  {
  }

  /** After `set<P>`, reading `P` gives the value just set and reading any other
      property gives what the context current before the `set` gave. */
  lemma SetOverridesOnlyItsKey(before: Context?, c: Context, cls: PropClass, value: string, other: PropClass)
    requires before == null || before.Valid()
    requires c.props == (if before == null then map[] else before.props)[cls := Prop(cls, value)]
    ensures c.Get(cls) == Success(value)
    ensures other != cls ==>
      c.Get(other) == if before == null then Success(DefaultProp(other).value) else before.Get(other)
  {
  }

  /** `main`: reads Henk and Namespace at the root, after a `set` whose result is
      discarded (and so popped again at once), inside a scope that keeps the result
      of a `set` of Henk, and after that scope has ended. */
  method Demo(thread: Thread) returns (values: seq<string>)
    requires thread.current == null
    modifies thread
    ensures values == ["I am henk", "", "I am henk", "", "Die nu ook", "", "I am henk", ""]
  {
    var root := Context.Current(thread);
    var h1 := root.Get(Henk);
    var n1 := root.Get(Namespace);

    var cur := Context.Current(thread);
    var discarded := cur.Set(Namespace, "Ja nu wel");
    discarded.Destroy();
    cur := Context.Current(thread);
    var h2 := cur.Get(Henk);
    var n2 := cur.Get(Namespace);

    cur := Context.Current(thread);
    var c3 := cur.Set(Henk, "Die nu ook");
    cur := Context.Current(thread);
    var h3 := cur.Get(Henk);
    var n3 := cur.Get(Namespace);
    c3.Destroy();

    cur := Context.Current(thread);
    var h4 := cur.Get(Henk);
    var n4 := cur.Get(Namespace);
    values := [h1.value, n1.value, h2.value, n2.value, h3.value, n3.value, h4.value, n4.value];
  }
}
