# LimeBean `Bean`, modelled in Dafny

LimeBean is a schema-less object/relational mapper. Its `Bean` is one row of a
table ("kind") that nothing declares in advance. A bean holds a dictionary from
property names to .NET `IConvertible` values, plus an optional kind string.
This project models that entity:

- **Names** (`Names.dfy`): the snake_case check `ValidateNameFormat` used for both
  property names and kinds. A check that passes returns `Pass`. The
  `ArgumentException` for blank names is `EmptyName`. The `FormatException`
  for any other bad name is `InvalidFormat(name)`. The check exists twice:
  `ValidateNameFormatAsWritten` reads the regular expression as .NET does,
  and `ValidateNameFormat` is the intended grammar that the bean uses (see
  "## Findings").
- **Values** (`Values.dfy`): a stored value is a boxed `IConvertible`. It carries
  its runtime type and a payload that must fit that type (`TypedValue`). This
  module also holds .NET's `TypeCode`, `Type.GetTypeCode`, `value.GetTypeCode()`,
  `default(T)`, the cast `(T)value` (the plain unbox, under which an enum and its
  underlying integer type stand in for each other), the unboxing `(T?)value` to a
  nullable (which needs exactly a boxed `T`), and the guarded conversion of
  `GetCore`. The library conversions themselves
  (`IConvertible.ToType`, `Enum.Parse`, invariant-culture `ToString`) are a
  `Converter`: a record of partial functions passed in as parameters, where
  `None` stands for any exception they throw.
- **Bags** (`Bags.dfy`): the pure rules of the property bag. They cover the
  indexer read and write, `GetCore`, `Get`, `GetNullable`, the `ID` getter and
  `Import` as a replay of the setter. The lemmas here relate these operations
  to each other.
- **Display** (`Display.dfy`): the `"<kind> #<id>"` text of `ToString`. A parser
  recovers the kind and the ID from it, which proves the text is unambiguous.
- **Beans** (`Beans.dfy`): the class `Bean`. Its field `props` holds the bag and
  its constant `kind` holds the kind. The indexer setter, both `Put` overloads,
  the `ID` setter and `Import` are methods that update `props` in place. The
  reads are functions. `Valid()` is the bag invariant: every stored key is a
  valid name and so is the kind. No stored value is null, by the value type.
- **KindRegistry** (`KindRegistry.dfy`): the cache behind `GetKind<T>()`, as a
  class `KindCache`. On a miss it constructs one instance, and it records every
  construction.

Exceptions are returned as values (`Outcome`, `Result`). On an error the state is
left exactly as the source leaves it when it throws. For example, an `Import`
that fails at an entry keeps the entries applied before it.

Behaviour of the code that the model keeps:
- `Get<T>` on an absent key returns `default(T)`, which is null for `string`,
  not an empty string.
- `Get<T>` can throw `InvalidCastException`. Its cast `(T)value` sits outside
  the `try`, so a value whose type code matches `T`'s but whose runtime type
  cannot be unboxed to `T` raises it (for example, a user type that reports a
  primitive type code).
- `GetNullable<T>` (and so the `ID` getter) throws `InvalidCastException` on a
  value that is not exactly a boxed `T`, even one whose type code matches: a
  boxed `int` read as a nullable `int`-based enum, or an `"id"` holding a
  `long`-based enum. `Get<T>` accepts both through the plain unbox.
- A kind name is validated in the constructor; a subtype whose constructor
  chain ends in the internal parameterless constructor has a null kind.

## Model

| member | source | states |
|---|---|---|
| `Names.IsNullOrWhiteSpace` | LimeBean/Bean.cs:113 | true exactly when every character is .NET white space, the empty string included |
| `Names.AllNameChars` | LimeBean/Bean.cs:15 | true exactly when every character is in `[a-z0-9_]` |
| `Names.MatchesNamePattern` | LimeBean/Bean.cs:15 | the intended reading of `^[a-z\d_]+$`: exactly the valid names (non-empty, all in `[a-z0-9_]`) |
| `Names.IsMatchAsWritten` | LimeBean/Bean.cs:15 | the .NET reading of `^[a-z\d_]+$`: a valid name, optionally followed by one final `'\n'` |
| `Names.Message` | LimeBean/Bean.cs:114-117 | the message of an `InvalidFormat` error starts with its fixed prefix, followed right away by the rejected name |
| `Names.ValidateNameFormat` | LimeBean/Bean.cs:112-118 | passes exactly the valid names; gives `EmptyName` exactly for blank names and `InvalidFormat(name)` exactly for the other invalid ones |
| `Names.ValidateNameFormatAsWritten` | LimeBean/Bean.cs:112-118 | as written: passes exactly the names the .NET regular expression matches; `EmptyName` exactly for blank names; `InvalidFormat(name)` exactly for the other rejected names |
| `Names.AsWrittenAcceptsTrailingNewline` | LimeBean/Bean.cs:15 | the as-written check accepts exactly the valid names and the valid names followed by one `'\n'` |
| `Names.TrailingNewlineCounterexample` | LimeBean/Bean.cs:116-117 | `"id\n"` passes the as-written check and fails the intended one with `InvalidFormat` |
| `Values.TypeCodeOf` | LimeBean/Bean.cs:86 | `Type.GetTypeCode`: never `Empty`; a built-in type's own code; an enum's underlying integral code; `Object` for a user type |
| `Values.IsValueType` | LimeBean/Bean.cs:73-74 | `string` and `DBNull` are reference types; every other built-in type and every enum is a value type; a user type is one as it is declared |
| `Values.ValueTypeCode` | LimeBean/Bean.cs:86 | a built-in or enum value reports its type's type code; a user type reports its own |
| `Values.Default` | LimeBean/Bean.cs:73-74 | `default(T)` is a value of type T exactly for value types, and null for reference types such as `string`; it is 0 for integers, enums and `char`, and `false` for `bool` |
| `Values.Cast` | LimeBean/Bean.cs:76 | `(T)value` among the modelled types (user types unrelated to each other): it succeeds exactly when the runtime type is T, or when both are integers or enums with the same type code; the result is a T with the same payload |
| `Values.UnboxNullable` | LimeBean/Bean.cs:80 | `(T?)value` gives the value exactly when its runtime type is T |
| `Values.FormatInvariant` | LimeBean/Bean.cs:91 | a string's invariant text is the string itself |
| `Values.Convert` | LimeBean/Bean.cs:89-96 | an enum target is case-insensitive `Enum.Parse` of the value's invariant text, and null when that text cannot be produced; other targets go through `ToType`; any failure is null |
| `Bags.Lookup` | LimeBean/Bean.cs:56-60 | the indexer read gives the stored value exactly when the key is present, and null otherwise |
| `Bags.AssignAsWritten` | LimeBean/Bean.cs:61-68 | the setter with the check as written: validates with `ValidateNameFormatAsWritten` and otherwise behaves as `Assign`, and is `Assign` on every name that does not end in `'\n'` |
| `Bags.TrailingNewlineKeyStored` | LimeBean/Bean.cs:15 | the setter as written stores the key `"id\n"`, which breaks the valid-name invariant, while `Assign` refuses it with `InvalidFormat` |
| `Bags.Assign` | LimeBean/Bean.cs:61-68 | a null write always succeeds; otherwise the name's validation decides. After success the name reads back the written value; other keys are untouched; an error leaves the bag unchanged; the invariant is kept |
| `Bags.GetCore` | LimeBean/Bean.cs:83-97 | absent key gives null; a matching type code returns the stored value unconverted; otherwise the guarded conversion's result |
| `Bags.Get` | LimeBean/Bean.cs:71-77 | null from GetCore (absent or unconvertible) gives `default(T)`; otherwise the result is GetCore's value cast to T, which is a T; it fails exactly when the cast is refused |
| `Bags.GetNullable` | LimeBean/Bean.cs:79-81 | no value exactly when GetCore gives null; otherwise GetCore's value itself, which is a T; it fails exactly when that value is not exactly a boxed T |
| `Bags.GetIsGetNullableOrDefault` | LimeBean/Bean.cs:71-81 | for value types, Get is GetNullable with "no value" replaced by `default(T)` when GetCore gives null or a boxed T; on a value of another runtime type GetNullable throws while Get succeeds exactly when the plain unbox allows it |
| `Bags.EnumReadIgnoresCase` | LimeBean/Bean.cs:90-91 | a stored string read as an enum is `Enum.Parse(type, s, true)`; two strings equal up to case read alike |
| `Bags.EnumGetParsesStoredString` | LimeBean/Bean.cs:71-77 | for an `Enum.Parse` that returns the enum type it is given, `Get<T>` of a stored string for an enum T is `Enum.Parse(T, s, true)`, with a failed parse read as `default(T)` |
| `Bags.IdOf` | LimeBean/Bean.cs:37-38 | ID is null exactly when GetCore of `"id"` as a `long` gives null, in particular when `"id"` is absent; a present ID is the payload of that `long`, within its range; it fails exactly when GetNullable does, so on a value that is not a boxed `long` |
| `Bags.AssignedValueReadsBack` | LimeBean/Bean.cs:61-67 | a value put under a valid name is read back unconverted by a target with its type code, and by Get of its own type |
| `Bags.RemovedReadsDefault` | LimeBean/Bean.cs:62-63 | a null write removes the key; Get then gives `default(T)` and GetNullable gives no value |
| `Bags.IdRoundTrip` | LimeBean/Bean.cs:37-40 | setting ID never fails; reading it back gives the same value under any converter; setting null removes `"id"` |
| `Bags.ImportAll` | LimeBean/Bean.cs:126-129 | replaying the setter over the entries keeps the bag invariant |
| `Bags.LastWrite` | LimeBean/Bean.cs:127-128 | the last value written for a key is present exactly when some entry names the key, and is the value of the entry for it that no later entry follows |
| `Bags.ImportSucceedsIffAdmissible` | LimeBean/Bean.cs:126-129 | Import succeeds exactly when every entry with a non-null value has a valid name |
| `Bags.ImportAppliesLastWrites` | LimeBean/Bean.cs:126-129 | after a successful Import each key holds its last entry's value (absent when that value is null), else its old value |
| `Bags.ImportStopsAtFirstInvalid` | LimeBean/Bean.cs:126-129 | Import stops at the first invalid non-null entry: the entries before it are applied and that name's error is raised |
| `Bags.ImportExport` | LimeBean/Bean.cs:122-129 | importing a bag's own entries, such as any enumeration of its Export, succeeds and leaves it unchanged |
| `Display.Digits` | LimeBean/Bean.cs:48 | a number's text is a non-empty string of decimal digits, with no leading zero except for 0 itself |
| `Display.DigitsRoundTrip` | LimeBean/Bean.cs:48 | the digits of n read back as n |
| `Display.DecimalRoundTrip` | LimeBean/Bean.cs:48 | the text of any long parses back to that long |
| `Display.DecimalString` | LimeBean/Bean.cs:48 | a non-empty text that starts with `'-'` exactly for negative numbers, the rest being decimal digits with no leading zero except in `"0"` |
| `Display.Render` | LimeBean/Bean.cs:46-48 | the kind, followed by `" #"` and the ID's decimal text exactly when there is an ID |
| `Display.HashIndex` | LimeBean/Bean.cs:48 | finds the first `'#'` of a text, or its length when there is none |
| `Display.RenderRoundTrip` | LimeBean/Bean.cs:46-48 | for a valid kind, `kind` or `kind + " #" + id` parses back to the kind and the optional ID |
| `Beans.Bean.constructor` | LimeBean/Bean.cs:25-26 | a new bean has no kind and no properties |
| `Beans.Bean.OfKind` | LimeBean/Bean.cs:30 | with a validated kind: no properties and that kind |
| `Beans.Bean.New` | LimeBean/Bean.cs:28-31 | succeeds exactly for a valid kind, with that kind and no properties; otherwise raises the validation error |
| `Beans.Bean.GetKind` | LimeBean/Bean.cs:33-35 | returns the kind given at construction, which is a valid name when present |
| `Beans.Bean.Item` | LimeBean/Bean.cs:56-60 | the indexer read gives the stored value exactly when the key is present, and null otherwise |
| `Beans.Bean.GetCore` | LimeBean/Bean.cs:83-97 | the bag's GetCore: null for an absent key, the stored value when the type codes match |
| `Beans.Bean.Get` | LimeBean/Bean.cs:71-77 | the bag's Get: `default(T)` for an absent key, and a returned value is a T |
| `Beans.Bean.GetNullable` | LimeBean/Bean.cs:79-81 | the bag's GetNullable: no value for an absent key, and a returned value is a T |
| `Beans.Bean.Id` | LimeBean/Bean.cs:37-38 | the bag's ID: null when `"id"` is absent, and a present ID is within the range of `long` |
| `Beans.Bean.SetItem` | LimeBean/Bean.cs:61-68 | the new bag is the setter's, the invariant is kept, the name reads back the written value and every other key reads as before |
| `Beans.Bean.Put` | LimeBean/Bean.cs:99-102 | exactly the indexer write; returns this same bean on success |
| `Beans.Bean.PutNullable` | LimeBean/Bean.cs:104-110 | an empty nullable removes the key and succeeds; a value is put as Put does; returns this same bean |
| `Beans.Bean.SetId` | LimeBean/Bean.cs:39-40 | null removes `"id"`, a value stores a long under `"id"`; ID then reads back that value under any converter |
| `Beans.Bean.ToString` | LimeBean/Bean.cs:42-51 | with no kind, the type name; otherwise fails exactly when reading ID fails; the text is the kind alone when ID is null and `kind + " #" + id` otherwise, and it parses back to the kind and the ID |
| `Beans.Bean.Export` | LimeBean/Bean.cs:122-124 | the copy reads exactly like the bean at every key |
| `Beans.Bean.Import` | LimeBean/Bean.cs:126-129 | the new bag and the outcome are those of replaying the setter over the entries in order; the invariant is kept |
| `Beans.ReimportExport` | LimeBean/Bean.cs:122-129 | importing any enumeration of a bean's export succeeds and leaves its properties unchanged |
| `KindRegistry.KindOf` | LimeBean/Bean.cs:19 | on success the kind is exactly the declared kind (null when none is declared); it succeeds exactly when none is declared or the declared kind is valid; a failure raises the declared kind's validation error |
| `KindRegistry.Instantiate` | LimeBean/Bean.cs:19 | constructing an instance and reading its kind gives `KindOf` |
| `KindRegistry.KindCache.constructor` | LimeBean/Bean.cs:16 | the cache starts empty with no constructions |
| `KindRegistry.KindCache.GetKind` | LimeBean/Bean.cs:18-20 | always answers the type's kind. A cached type is answered with no construction and no change. Otherwise one instance is constructed, and a kind it yields is added with nothing else changed. Every cached type was constructed exactly once |

## Left out

- `Names.ValidateNameFormatAsWritten`: `\d` is modelled as the ASCII digits `0-9`. Under .NET defaults `\d` also matches every other Unicode decimal digit (such as U+0660), so the source also accepts names with such digits. Which characters those are depends on the runtime's Unicode tables. The trailing-newline behaviour of `$` is modelled exactly here and in `Bags.AssignAsWritten`.
- `Bags.Assign`: validates names with the corrected `ValidateNameFormat`, not the check as written. So it refuses a valid name followed by one `'\n'` (such as `"id\n"`), which the source stores. The same holds for `Beans.Bean.New` and `KindRegistry.KindOf`, which refuse such a kind that the source accepts, and for the bag invariant (`Bags.BagInvariant`, `Beans.Bean.Valid`) and the Import lemmas built on `Assign`. This is the correction of the finding below. The source's behaviour on these names is modelled by `Bags.AssignAsWritten` and `Names.ValidateNameFormatAsWritten`, which agree with the corrected ones on every other name.
- `Bags.ImportSucceedsIffAdmissible`: "valid name" is the corrected grammar. Under the source's check an entry whose name is a valid name followed by one `'\n'` is also imported (see `Bags.Assign` above).
- `Bags.ImportStopsAtFirstInvalid`: the error raised is the corrected `ValidateNameFormat`'s. The source would not stop at an entry whose name is a valid name followed by one `'\n'` (see `Bags.Assign` above).
- `Beans.Bean.New`: succeeds exactly for a valid name under the corrected grammar; the source also accepts a kind that is a valid name followed by one `'\n'`.
- `KindRegistry.KindOf`: validates with the corrected grammar, as `Beans.Bean.New` does.
- Null references are not modelled, because a Dafny `string` cannot be null. In the source, a null kind is rejected by `ValidateNameFormat` with `ArgumentException`. A null property name makes the dictionary throw `ArgumentNullException` on reads and on null writes.
- The library conversions `IConvertible.ToType`, `Enum.Parse` and invariant-culture `ToString` are parameters (`Converter`), not definitions. Their culture formatting, numeric narrowing and floating-point behaviour are .NET library behaviour.
- `Values.Cast`: user types are modelled as unrelated to one another, with no inheritance and no interface targets. In the source, `(T)value` for a class or interface `T` also succeeds when the value's type derives from `T` or implements it. The model refuses such a cast with `InvalidCast`.
- Floating-point, decimal and `DateTime` contents are uninterpreted tokens. Only their type and equality matter to the accessors.
- `Beans.Bean.ToString`: the text after `" #"` is modelled as the invariant decimal form with `'-'` for negatives. The source formats the `long` with the current culture, whose negative sign may differ. With no kind, `base.ToString()` is a runtime type name, given as the parameter `typeName`.
- `Bags.EnumReadIgnoresCase`: the case-insensitive match is a property of `Enum.Parse`, which is a parameter here. The lemma shows that `ignoreCase = true` is passed and what follows for any `Enum.Parse` that ignores case.
- `KindRegistry.KindCache.GetKind`: only sequential memo behaviour is modelled. The thread safety of `ConcurrentDictionary.GetOrAdd` and its duplicate computation under races are out. A subtype's constructor is reduced to the kind it passes to its base constructor; its other effects are not modelled.
- The cache is an explicit object rather than a static field, because Dafny has no mutable statics.
- The lifecycle hooks (`AfterDispense`, `BeforeLoad`, `AfterLoad`, `BeforeStore`, `AfterStore`, `BeforeTrash`, `AfterTrash`, LimeBean/Bean.cs:133-152) are not modelled. They are empty virtual methods, and overriding them needs inheritance, which this model does not use.
- `[Serializable]` is not modelled.
- LimeBean/Portability.cs (reflection shims and a provider-factory constructor) is not part of this model.
- LimeBean/ITransactionSupport.cs is not part of this model. It is an interface; its implementation, the transaction coordinator, is outside this model.
- `Import` takes the dictionary's enumeration as a sequence of entries. The order .NET's `Dictionary` enumerates in is unspecified. Order matters only for where a failing import stops.

## Findings

| source | as written | input that shows it | evidently intended | confidence | as-written member | corrected member |
|---|---|---|---|---|---|---|
| LimeBean/Bean.cs:15 | `^[a-z\d_]+$` without `RegexOptions` lets `$` match before a final `'\n'`, so a name ending in one newline passes `ValidateNameFormat` and becomes a stored key or a kind | `"id\n"` | only non-empty strings over `[a-z0-9_]` pass (snake_case, as the error message says); for example, anchor with `\z` | high (not executed) | `Bags.TrailingNewlineKeyStored` | `Names.ValidateNameFormat` |
