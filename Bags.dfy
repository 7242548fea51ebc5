/**
 * The property bag of a bean (the `_props` dictionary, LimeBean/Bean.cs:22)
 * and the pure rules that its indexer, typed accessors and Import follow.
 * The class Bean in module Beans holds one such bag and updates it in place.
 */
module Bags {
  import opened Wrappers
  import opened Names
  import opened Values

  type Bag = map<string, TypedValue>

  /** One entry of a dictionary handed to Import; a null value is allowed there. */
  type Entry = (string, Option<TypedValue>)

  const IdPropName: string := "id"

  /** The bag invariant: every stored key is a valid name (no value is null, by its type). */
  ghost predicate BagInvariant(p: Bag) {
    forall k :: k in p ==> IsValidName(k)
  }

  /** The indexer getter (LimeBean/Bean.cs:56-60): an absent key reads as null and never throws. */
  function Lookup(p: Bag, name: string): (r: Option<TypedValue>)
    ensures r.Some? <==> name in p
    ensures r.Some? ==> r.value == p[name]
  {
    if name in p then Some(p[name]) else None
  }

  /**
   * The indexer setter (LimeBean/Bean.cs:61-68) on the bag: null removes the
   * key without validating it; any other value is stored after the name is
   * validated, and an invalid name leaves the bag as it was.
   */
  function Assign(p: Bag, name: string, value: Option<TypedValue>): (r: (Bag, Outcome<NameError>))
    ensures value.None? ==> r.1 == Pass
    ensures value.Some? ==> r.1 == ValidateNameFormat(name)
    ensures r.1.Pass? ==> Lookup(r.0, name) == value
    ensures r.1.Pass? ==> forall k :: k != name ==> Lookup(r.0, k) == Lookup(p, k)
    ensures r.1.Fail? ==> r.0 == p
    ensures BagInvariant(p) ==> BagInvariant(r.0)
  {
    match value
    case None => (p - {name}, Pass)
    case Some(v) =>
      match ValidateNameFormat(name)
      case Fail(e) => (p, Fail(e))
      case Pass => (p[name := v], Pass)
  }

  /**
   * The setter with the name check exactly as the source writes it, where
   * `$` lets one trailing '\n' after a valid name through. It differs from
   * Assign only on such names.
   */
  function AssignAsWritten(p: Bag, name: string, value: Option<TypedValue>): (r: (Bag, Outcome<NameError>))
    ensures value.None? ==> r == (p - {name}, Pass)
    ensures value.Some? ==> r.1 == ValidateNameFormatAsWritten(name)
    ensures r.1.Pass? ==> Lookup(r.0, name) == value
    ensures r.1.Pass? ==> forall k :: k != name ==> Lookup(r.0, k) == Lookup(p, k)
    ensures r.1.Fail? ==> r.0 == p
    ensures !(|name| > 0 && name[|name| - 1] == '\n') ==> r == Assign(p, name, value)
  {
    match value
    case None => (p - {name}, Pass)
    case Some(v) =>
      match ValidateNameFormatAsWritten(name)
      case Fail(e) => (p, Fail(e))
      case Pass => (p[name := v], Pass)
  }

  /**
   * The consequence of the source's `$`: the setter as written stores "id\n"
   * as a key, which breaks the valid-name invariant, where Assign refuses it.
   */
  lemma TrailingNewlineKeyStored(p: Bag, v: TypedValue)
    ensures AssignAsWritten(p, "id\n", Some(v)) == (p["id\n" := v], Pass)
    ensures !BagInvariant(AssignAsWritten(p, "id\n", Some(v)).0)
    ensures Assign(p, "id\n", Some(v)) == (p, Fail(InvalidFormat("id\n")))
  {
  }

  /**
   * GetCore (LimeBean/Bean.cs:83-97): null for an absent key; the stored value
   * itself when its type code is the target's; otherwise the guarded
   * conversion, whose failures read as null.
   */
  function GetCore(p: Bag, name: string, target: ClrType, conv: Converter): (r: Option<TypedValue>)
    ensures name !in p ==> r.None?
    ensures name in p && ValueTypeCode(p[name]) == TypeCodeOf(target) ==> r == Some(p[name])
    ensures name in p && ValueTypeCode(p[name]) != TypeCodeOf(target) ==> r == Convert(conv, p[name], target)
  {
    match Lookup(p, name)
    case None => None
    case Some(v) =>
      if ValueTypeCode(v) == TypeCodeOf(target) then Some(v) else Convert(conv, v, target)
  }

  /**
   * Get<T> (LimeBean/Bean.cs:71-77): a null from GetCore becomes default(T);
   * a value is cast to T, and a cast the CLR refuses raises InvalidCastException.
   */
  function Get(p: Bag, name: string, target: ClrType, conv: Converter): (r: Result<Option<TypedValue>, CastError>)
    ensures GetCore(p, name, target, conv).None? ==> r == Success(Default(target))
    ensures name !in p ==> r == Success(Default(target))
    ensures r.Success? && r.value.Some? ==> r.value.value.runtimeType == target
    ensures r.Success? && r.value.None? ==> !IsValueType(target)
    ensures r.Success? && GetCore(p, name, target, conv).Some? ==>
              r.value == Cast(GetCore(p, name, target, conv).value, target)
    ensures r.Failure? <==>
              GetCore(p, name, target, conv).Some? && Cast(GetCore(p, name, target, conv).value, target).None?
  {
    match GetCore(p, name, target, conv)
    case None => Success(Default(target))
    case Some(v) =>
      match Cast(v, target)
      case None => Failure(InvalidCast)
      case Some(c) => Success(Some(c))
  }

  /**
   * GetNullable<T> for a struct T (LimeBean/Bean.cs:79-81): a null from
   * GetCore is an empty T?; a value is unboxed to T.
   */
  function GetNullable(p: Bag, name: string, target: ClrType, conv: Converter): (r: Result<Option<TypedValue>, CastError>)
    requires IsValueType(target)
    ensures GetCore(p, name, target, conv).None? <==> r == Success(None)
    ensures r.Success? && r.value.Some? ==> r.value.value.runtimeType == target
    ensures r.Success? && GetCore(p, name, target, conv).Some? ==> r.value == GetCore(p, name, target, conv)
    ensures r.Failure? <==>
              GetCore(p, name, target, conv).Some? && GetCore(p, name, target, conv).value.runtimeType != target
  {
    match GetCore(p, name, target, conv)
    case None => Success(None)
    case Some(v) =>
      match UnboxNullable(v, target)
      case None => Failure(InvalidCast)
      case Some(c) => Success(Some(c))
  }

  /**
   * On a value type, Get and GetNullable agree except that Get turns "no value"
   * into default(T), as long as GetCore gives null or exactly a boxed T. On a
   * value of another runtime type GetNullable always throws, while Get still
   * succeeds where the plain unbox allows it (an enum read as its integer).
   */
  lemma GetIsGetNullableOrDefault(p: Bag, name: string, target: ClrType, conv: Converter)
    requires IsValueType(target)
    ensures GetCore(p, name, target, conv).None? || GetCore(p, name, target, conv).value.runtimeType == target ==>
              Get(p, name, target, conv) ==
                match GetNullable(p, name, target, conv)
                case Success(None) => Success(Default(target))
                case other => other
    ensures GetCore(p, name, target, conv).Some? && GetCore(p, name, target, conv).value.runtimeType != target ==>
              GetNullable(p, name, target, conv) == Failure(InvalidCast)
              && (Get(p, name, target, conv).Success? <==> Cast(GetCore(p, name, target, conv).value, target).Some?)
  {
  }

  /**
   * Get<T> of a stored string for an enum T is Enum.Parse(T, s, true): null
   * becomes default(T), and a parsed value is returned as it is.
   */
  lemma EnumGetParsesStoredString(p: Bag, name: string, s: string, target: ClrType, conv: Converter)
    requires target.Enumeration? && IsValidName(name)
    requires ParsesToTarget(conv)
    ensures Get(Assign(p, name, Some(Box(Primitive(String), Text(s)))).0, name, target, conv) ==
              match conv.parseEnum(target, s, true)
              case None => Success(Default(target))
              case Some(x) => Success(Some(x))
  {
  }

  /**
   * Enum targets are parsed with ignoreCase = true: for an Enum.Parse that
   * reads a text and its case-folded form alike, two stored strings that fold
   * to the same text read as the same enum value (or both as null).
   */
  lemma EnumReadIgnoresCase(p: Bag, name: string, s1: string, s2: string, target: ClrType,
                            conv: Converter, fold: string -> string)
    requires target.Enumeration? && IsValidName(name)
    requires forall s :: conv.parseEnum(target, s, true) == conv.parseEnum(target, fold(s), true)
    requires fold(s1) == fold(s2)
    ensures GetCore(Assign(p, name, Some(Box(Primitive(String), Text(s1)))).0, name, target, conv)
         == GetCore(Assign(p, name, Some(Box(Primitive(String), Text(s2)))).0, name, target, conv)
    ensures GetCore(Assign(p, name, Some(Box(Primitive(String), Text(s1)))).0, name, target, conv)
         == conv.parseEnum(target, s1, true)
  {
  }

  /** The boxed long that the ID setter stores. */
  function IdValue(n: int): (v: TypedValue)
    requires InIntegralRange(Int64, n)
    ensures v.runtimeType == Primitive(Int64) && v.payload == Integer(n)
  {
    Box(Primitive(Int64), Integer(n))
  }

  /** The ID getter (LimeBean/Bean.cs:37-38): GetNullable<long>("id"), as a number. */
  function IdOf(p: Bag, conv: Converter): (r: Result<Option<int>, CastError>)
    ensures IdPropName !in p ==> r == Success(None)
    ensures r.Success? && r.value.Some? ==> InIntegralRange(Int64, r.value.value)
    ensures r.Failure? <==> GetNullable(p, IdPropName, Primitive(Int64), conv).Failure?
    ensures r == Success(None) <==> GetCore(p, IdPropName, Primitive(Int64), conv).None?
    ensures r.Success? && r.value.Some? ==>
              GetCore(p, IdPropName, Primitive(Int64), conv).value.payload == Integer(r.value.value)
  {
    match GetNullable(p, IdPropName, Primitive(Int64), conv)
    case Failure(e) => Failure(e)
    case Success(None) => Success(None)
    case Success(Some(v)) => Success(Some(v.payload.n))
  }

  /** A value written under a valid name reads back unconverted once its type code matches the target's. */
  lemma AssignedValueReadsBack(p: Bag, name: string, v: TypedValue, target: ClrType, conv: Converter)
    requires IsValidName(name)
    requires ValueTypeCode(v) == TypeCodeOf(target)
    ensures Assign(p, name, Some(v)).1 == Pass
    ensures GetCore(Assign(p, name, Some(v)).0, name, target, conv) == Some(v)
    ensures v.runtimeType == target ==> Get(Assign(p, name, Some(v)).0, name, target, conv) == Success(Some(v))
  {
  }

  /** A null write removes the key: Get then gives default(T) and GetNullable no value, for any name. */
  lemma RemovedReadsDefault(p: Bag, name: string, target: ClrType, conv: Converter)
    ensures Assign(p, name, None) == (p - {name}, Pass)
    ensures Get(Assign(p, name, None).0, name, target, conv) == Success(Default(target))
    ensures IsValueType(target) ==> GetNullable(Assign(p, name, None).0, name, target, conv) == Success(None)
  {
  }

  /** Setting ID to n and reading it back gives n whatever the converter; setting it to null removes "id". */
  lemma IdRoundTrip(p: Bag, id: Option<int>, conv: Converter)
    requires id.Some? ==> InIntegralRange(Int64, id.value)
    ensures Assign(p, IdPropName, if id.Some? then Some(IdValue(id.value)) else None).1 == Pass
    ensures IdOf(Assign(p, IdPropName, if id.Some? then Some(IdValue(id.value)) else None).0, conv) == Success(id)
    ensures id.None? ==> IdPropName !in Assign(p, IdPropName, None).0
  {
  }

  /**
   * Import (LimeBean/Bean.cs:126-129) on the bag: the setter applied to each
   * entry in turn; the first invalid name stops it, keeping what the entries
   * before it did.
   */
  function ImportAll(p: Bag, entries: seq<Entry>): (r: (Bag, Outcome<NameError>))
    ensures BagInvariant(p) ==> BagInvariant(r.0)
    decreases |entries|
  {
    if entries == [] then (p, Pass)
    else
      var (q, ok) := Assign(p, entries[0].0, entries[0].1);
      if ok.Fail? then (p, ok) else ImportAll(q, entries[1..])
  }

  /** An entry whose value is non-null has to carry a valid name. */
  predicate Admissible(e: Entry) {
    e.1.None? || IsValidName(e.0)
  }

  /** The value the last entry for `k` writes ("later entries win"), if any entry is for `k`. */
  function LastWrite(entries: seq<Entry>, k: string): (r: Option<Option<TypedValue>>)
    ensures r.None? <==> forall i :: 0 <= i < |entries| ==> entries[i].0 != k
    ensures r.Some? ==>
              exists i :: 0 <= i < |entries| && entries[i] == (k, r.value)
                && forall j :: i < j < |entries| ==> entries[j].0 != k
  {
    if entries == [] then None
    else
      var later := LastWrite(entries[1..], k);
      if later.Some? then later
      else if entries[0].0 == k then Some(entries[0].1)
      else None
  }

  /** Import succeeds exactly when every non-null entry has a valid name. */
  lemma {:induction false} ImportSucceedsIffAdmissible(p: Bag, entries: seq<Entry>)
    ensures ImportAll(p, entries).1.Pass? <==> forall i :: 0 <= i < |entries| ==> Admissible(entries[i])
    decreases |entries|
  {
    if entries != [] {
      var q := Assign(p, entries[0].0, entries[0].1).0;
      ImportSucceedsIffAdmissible(q, entries[1..]);
      assert forall i :: 1 <= i < |entries| ==> entries[i] == entries[1..][i - 1];
    }
  }

  /** After a successful Import each key holds the value of its last entry, or what it held before. */
  lemma {:induction false} ImportAppliesLastWrites(p: Bag, entries: seq<Entry>, k: string)
    requires forall i :: 0 <= i < |entries| ==> Admissible(entries[i])
    ensures ImportAll(p, entries).1 == Pass
    ensures Lookup(ImportAll(p, entries).0, k) ==
              match LastWrite(entries, k)
              case None => Lookup(p, k)
              case Some(w) => w
    decreases |entries|
  {
    if entries != [] {
      var q := Assign(p, entries[0].0, entries[0].1).0;
      assert forall i :: 0 <= i < |entries[1..]| ==> entries[1..][i] == entries[i + 1];
      assert Admissible(entries[0]);
      ImportAppliesLastWrites(q, entries[1..], k);
    }
  }

  /**
   * Import stops at the first entry with a non-null value and an invalid name:
   * the entries before it are applied and that name's error is raised.
   */
  lemma {:induction false} ImportStopsAtFirstInvalid(p: Bag, entries: seq<Entry>, j: nat)
    requires j < |entries| && !Admissible(entries[j])
    requires forall i :: 0 <= i < j ==> Admissible(entries[i])
    ensures ImportAll(p, entries) == (ImportAll(p, entries[..j]).0, ValidateNameFormat(entries[j].0))
    decreases j
  {
    if j == 0 {
      assert entries[..0] == [];
    } else {
      var q := Assign(p, entries[0].0, entries[0].1).0;
      assert Admissible(entries[0]);
      assert forall i :: 0 <= i < j - 1 ==> entries[1..][i] == entries[i + 1];
      ImportStopsAtFirstInvalid(q, entries[1..], j - 1);
      assert entries[..j][1..] == entries[1..][..j - 1];
    }
  }

  /** Every entry is one of the bag's own (key, value) pairs, as any enumeration of an Export of it is. */
  predicate OwnEntries(p: Bag, entries: seq<Entry>) {
    forall i :: 0 <= i < |entries| ==> entries[i].0 in p && entries[i].1 == Some(p[entries[i].0])
  }

  /** Import(Export()) round trip: importing a bag's own entries succeeds and changes nothing. */
  lemma {:induction false} ImportExport(p: Bag, entries: seq<Entry>)
    requires BagInvariant(p)
    requires OwnEntries(p, entries)
    ensures ImportAll(p, entries) == (p, Pass)
    decreases |entries|
  {
    if entries != [] {
      var (k, v) := entries[0];
      assert IsValidName(k);
      assert Assign(p, k, v) == (p, Pass) by {
        assert p[k := p[k]] == p;
      }
      assert OwnEntries(p, entries[1..]) by {
        forall i | 0 <= i < |entries[1..]|
          ensures entries[1..][i].0 in p && entries[1..][i].1 == Some(p[entries[1..][i].0])
        {
          assert entries[1..][i] == entries[i + 1];
        }
      }
      ImportExport(p, entries[1..]);
    }
  }
}
