/**
 * The Bean entity (LimeBean/Bean.cs:12-154): a property bag that the
 * indexer, Put and Import update in place, and a kind fixed at construction.
 * Exceptions the source throws are returned as Fail/Failure values; the
 * state is left exactly as the source leaves it when it throws.
 */
module Beans {
  import opened Wrappers
  import opened Names
  import opened Values
  import opened Bags
  import opened Display

  class Bean {
    /** The `_props` dictionary. */
    var props: Bag
    /** The `_kind` field; null for a bean made by the internal parameterless constructor. */
    const kind: Option<string>

    /** Every stored key is a valid name, and so is the kind when there is one. */
    ghost predicate Valid()
      reads this
    {
      BagInvariant(props) && (kind.Some? ==> IsValidName(kind.value))
    }

    /** The internal parameterless constructor (LimeBean/Bean.cs:25-26): no kind, no properties. */
    constructor ()
      ensures Valid() && props == map[] && kind == None
    {
      props := map[];
      kind := None;
    }

    /** The body of Bean(string kind) once the kind has been validated. */
    constructor OfKind(k: string)
      requires IsValidName(k)
      ensures Valid() && props == map[] && kind == Some(k)
    {
      props := map[];
      kind := Some(k);
    }

    /**
     * The constructor Bean(string kind) (LimeBean/Bean.cs:28-31): validates
     * the kind first and throws when it is not a valid name.
     */
    static method New(k: string) returns (r: Result<Bean, NameError>)
      ensures r.Success? <==> IsValidName(k)
      ensures r.Failure? ==> Fail(r.error) == ValidateNameFormat(k)
      ensures r.Success? ==> fresh(r.value) && r.value.Valid() && r.value.props == map[] && r.value.kind == Some(k)
    {
      var check := ValidateNameFormat(k);
      if check.Fail? {
        r := Failure(check.error);
      } else {
        var b := new Bean.OfKind(k);
        r := Success(b);
      }
    }

    /** GetKind() (LimeBean/Bean.cs:33-35). */
    function GetKind(): (k: Option<string>)
      requires Valid()
      reads this
      ensures k == kind
      ensures k.Some? ==> IsValidName(k.value)
    {
      kind
    }

    /** The indexer getter (LimeBean/Bean.cs:56-60): null for an absent key, never an error. */
    function Item(name: string): (r: Option<TypedValue>)
      reads this
      ensures r.Some? <==> name in props
      ensures r.Some? ==> r.value == props[name]
    {
      Lookup(props, name)
    }

    /** The indexer setter (LimeBean/Bean.cs:61-68). */
    method SetItem(name: string, value: Option<TypedValue>) returns (r: Outcome<NameError>)
      requires Valid()
      modifies this
      ensures Valid()
      ensures (props, r) == Assign(old(props), name, value)
      ensures r.Pass? ==> Item(name) == value
      ensures forall k :: k != name ==> Item(k) == old(Item(k))
    {
      var next := Assign(props, name, value);
      props := next.0;
      r := next.1;
    }

    /** Put<T>(name, value) (LimeBean/Bean.cs:99-102): the indexer write; returns this bean. */
    method Put(name: string, value: Option<TypedValue>) returns (r: Result<Bean, NameError>)
      requires Valid()
      modifies this
      ensures Valid()
      ensures props == Assign(old(props), name, value).0
      ensures r.Success? <==> Assign(old(props), name, value).1.Pass?
      ensures r.Success? ==> r.value == this
      ensures r.Failure? ==> Fail(r.error) == Assign(old(props), name, value).1
    {
      var outcome := SetItem(name, value);
      match outcome
      case Fail(e) =>
        r := Failure(e);
      case Pass =>
        r := Success(this);
    }

    /**
     * Put<T>(name, T? value) for a struct T (LimeBean/Bean.cs:104-110): an empty
     * nullable removes the key, any other value is put as the non-nullable Put does.
     */
    method PutNullable(name: string, value: Option<TypedValue>) returns (r: Result<Bean, NameError>)
      requires Valid()
      requires value.Some? ==> IsValueType(value.value.runtimeType)
      modifies this
      ensures Valid()
      ensures value.None? ==> props == old(props) - {name} && r == Success(this)
      ensures value.Some? ==> props == Assign(old(props), name, value).0
      ensures r.Success? <==> Assign(old(props), name, value).1.Pass?
      ensures r.Success? ==> r.value == this
      ensures r.Failure? ==> Fail(r.error) == Assign(old(props), name, value).1
    {
      if value.Some? {
        r := Put(name, value);
      } else {
        var _ := SetItem(name, None);
        r := Success(this);
      }
    }

    /** GetCore(name, typeof(T)) on this bean's bag. */
    function GetCore(name: string, target: ClrType, conv: Converter): (r: Option<TypedValue>)
      reads this
      ensures r == Bags.GetCore(props, name, target, conv)
      ensures name !in props ==> r.None?
      ensures name in props && ValueTypeCode(props[name]) == TypeCodeOf(target) ==> r == Some(props[name])
    {
      Bags.GetCore(props, name, target, conv)
    }

    /** Get<T>(name) on this bean's bag. */
    function Get(name: string, target: ClrType, conv: Converter): (r: Result<Option<TypedValue>, CastError>)
      reads this
      ensures r == Bags.Get(props, name, target, conv)
      ensures name !in props ==> r == Success(Default(target))
      ensures r.Success? && r.value.Some? ==> r.value.value.runtimeType == target
    {
      Bags.Get(props, name, target, conv)
    }

    /** GetNullable<T>(name) on this bean's bag. */
    function GetNullable(name: string, target: ClrType, conv: Converter): (r: Result<Option<TypedValue>, CastError>)
      requires IsValueType(target)
      reads this
      ensures r == Bags.GetNullable(props, name, target, conv)
      ensures name !in props ==> r == Success(None)
      ensures r.Success? && r.value.Some? ==> r.value.value.runtimeType == target
    {
      Bags.GetNullable(props, name, target, conv)
    }

    /** The ID getter (LimeBean/Bean.cs:37-38) on this bean's bag. */
    function Id(conv: Converter): (r: Result<Option<int>, CastError>)
      reads this
      ensures r == IdOf(props, conv)
      ensures IdPropName !in props ==> r == Success(None)
      ensures r.Success? && r.value.Some? ==> InIntegralRange(Int64, r.value.value)
    {
      IdOf(props, conv)
    }

    /** The ID setter (LimeBean/Bean.cs:39): Put("id", value) on a long?; null removes "id". */
    method SetId(id: Option<int>)
      requires Valid()
      requires id.Some? ==> InIntegralRange(Int64, id.value)
      modifies this
      ensures Valid()
      ensures id.None? ==> props == old(props) - {IdPropName}
      ensures id.Some? ==> props == old(props)[IdPropName := IdValue(id.value)]
      ensures forall conv: Converter :: Id(conv) == Success(id)
    {
      var _ := PutNullable(IdPropName, if id.Some? then Some(IdValue(id.value)) else None);
      forall conv: Converter
        ensures Id(conv) == Success(id)
      {
        IdRoundTrip(old(props), id, conv);
      }
    }

    /**
     * ToString() (LimeBean/Bean.cs:42-51) for a bean: `typeName` stands for
     * base.ToString(), the runtime type name; reading ID may throw a cast error.
     */
    function ToString(conv: Converter, typeName: string): (r: Result<string, CastError>)
      requires Valid()
      reads this
      ensures kind.None? ==> r == Success(typeName)
      ensures kind.Some? ==> (r.Failure? <==> Id(conv).Failure?)
      ensures kind.Some? && r.Success? ==> ParseRender(r.value) == (kind.value, Id(conv).value)
      ensures kind.Some? && Id(conv) == Success(None) ==> r == Success(kind.value)
      ensures kind.Some? && Id(conv).Success? && Id(conv).value.Some? ==>
                r == Success(kind.value + " #" + DecimalString(Id(conv).value.value))
    {
      match kind
      case None => Success(typeName)
      case Some(k) =>
        match Id(conv)
        case Failure(e) => Failure(e)
        case Success(id) =>
          RenderRoundTrip(k, id);
          Success(Render(k, id))
    }

    /** Export() (LimeBean/Bean.cs:122-124): a copy of the bag; a map is a value, so later writes do not reach it. */
    function Export(): (m: Bag)
      reads this
      ensures forall k :: Lookup(m, k) == Item(k)
    {
      props
    }

    /** Import(data) (LimeBean/Bean.cs:126-129): the indexer setter over each entry, in enumeration order. */
    method Import(data: seq<Entry>) returns (r: Outcome<NameError>)
      requires Valid()
      modifies this
      ensures Valid()
      ensures (props, r) == ImportAll(old(props), data)
    {
      var i := 0;
      while i < |data|
        invariant 0 <= i <= |data|
        invariant Valid()
        invariant ImportAll(old(props), data) == ImportAll(props, data[i..])
      {
        assert data[i..][1..] == data[i + 1..];
        var outcome := SetItem(data[i].0, data[i].1);
        if outcome.Fail? {
          return outcome;
        }
        i := i + 1;
      }
      r := Pass;
    }
  }

  /** Import(Export()) on a bean: any enumeration of its export imports back with no change and no error. */
  method ReimportExport(b: Bean, entries: seq<Entry>) returns (r: Outcome<NameError>)
    requires b.Valid()
    requires OwnEntries(b.Export(), entries)
    modifies b
    ensures r == Pass && b.props == old(b.props)
  {
    ImportExport(b.props, entries);
    r := b.Import(entries);
  }
}
