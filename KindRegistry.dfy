/**
 * The kind cache behind Bean.GetKind<T>() (LimeBean/Bean.cs:16-20): the kind
 * of each bean subtype, computed by constructing one instance of it the
 * first time it is asked for and served from the cache afterwards.
 */
module KindRegistry {
  import opened Wrappers
  import opened Names
  import Beans

  /**
   * A bean subtype with a parameterless constructor, identified by its name;
   * `declaredKind` is the kind its constructor chain passes to Bean(string kind),
   * or None when it ends in the parameterless Bean().
   */
  datatype BeanType = BeanType(name: string, declaredKind: Option<string>)

  /** new T().GetKind(): the declared kind, validated by the base constructor. */
  function KindOf(t: BeanType): (r: Result<Option<string>, NameError>)
    ensures r.Success? <==> t.declaredKind.None? || IsValidName(t.declaredKind.value)
    ensures r.Success? ==> r.value == t.declaredKind
    ensures r.Failure? ==> t.declaredKind.Some? && Fail(r.error) == ValidateNameFormat(t.declaredKind.value)
  {
    match t.declaredKind
    case None => Success(None)
    case Some(k) =>
      match ValidateNameFormat(k)
      case Fail(e) => Failure(e)
      case Pass => Success(Some(k))
  }

  /** Constructs an instance of `t` and reads its kind, as `new T().GetKind()` does. */
  method Instantiate(t: BeanType) returns (r: Result<Option<string>, NameError>)
    ensures r == KindOf(t)
  {
    match t.declaredKind
    case None =>
      var b := new Beans.Bean();
      r := Success(b.GetKind());
    case Some(k) =>
      var made := Beans.Bean.New(k);
      if made.Failure? {
        r := Failure(made.error);
      } else {
        r := Success(made.value.GetKind());
      }
  }

  /** The `_kindCache` dictionary, with a record of the instances it has constructed. */
  class KindCache {
    var entries: map<BeanType, Option<string>>
    /** Every type an instance was constructed for, in order. */
    ghost var instantiated: seq<BeanType>

    /**
     * A cached kind is the type's own kind; a type is cached exactly when an
     * instance of it was constructed and its kind was obtained, and it was
     * constructed only once.
     */
    ghost predicate Valid()
      reads this
    {
      && (forall t :: t in entries ==> KindOf(t) == Success(entries[t]))
      && (forall t :: t in entries <==> t in instantiated && KindOf(t).Success?)
      && (forall t :: t in entries ==> multiset(instantiated)[t] == 1)
    }

    /** The cache starts empty (a static field initialised once per process). */
    constructor ()
      ensures Valid() && entries == map[] && instantiated == []
    {
      entries := map[];
      instantiated := [];
    }

    /**
     * GetKind<T>(): GetOrAdd with the factory `new T().GetKind()`. The answer is
     * always the type's kind; a cached type is answered with no construction and
     * no change; otherwise one instance is constructed and a kind it yields is
     * added, while a constructor that throws adds nothing.
     */
    method GetKind(t: BeanType) returns (r: Result<Option<string>, NameError>)
      requires Valid()
      modifies this
      ensures Valid()
      ensures r == KindOf(t)
      ensures t in old(entries) ==> entries == old(entries) && instantiated == old(instantiated)
      ensures t !in old(entries) ==> instantiated == old(instantiated) + [t]
      ensures t !in old(entries) && r.Success? ==> entries == old(entries)[t := r.value]
      ensures t !in old(entries) && r.Failure? ==> entries == old(entries)
    {
      if t in entries {
        r := Success(entries[t]);
      } else {
        r := Instantiate(t);
        instantiated := instantiated + [t];
        if r.Success? {
          assert t !in old(instantiated);
          entries := entries[t := r.value];
        }
      }
    }
  }
}
