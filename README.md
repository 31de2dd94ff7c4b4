# properties-module, modelled in Dafny

The Java library `mcaligares/properties-module` has two parts, and this project models both.

- **Field binder.** `PropertiesConfig.build(entity)` handles an object whose class carries `@BeanProperties(prop = "...")`. It loads that `.properties` resource and fills every field annotated `@Key("...")` whose key the resource defines. Before assigning, `wrapperValue` converts the raw string to the field's declared type.
- **Key/value builder.** `PropertiesBuilder` is a fluent accumulator. Its `keys` and `values` lists are created lazily. `build()` pairs the two lists by position into a `java.util.Properties`. Two static constructors also produce a `Properties`: `createFromMap` from a `Map`, and `createFromArray` from nested row arrays.

The model has four modules:

| file | module | what it holds |
|---|---|---|
| `java_lang.dfy` | `JavaLang` | The shared types: nullable references (`Obj`), the exceptions the core raises, and `Result`/`Outcome` for a call that may throw. A `Properties` is modelled as `map<string, string>`. |
| `decimal.dfy` | `Decimal` | Decimal numerals as `Long.valueOf`, `Integer.valueOf`, `Short.valueOf` and `Byte.valueOf` read them: parsing, printing, round trip, and the range of each width. |
| `properties_builder.dfy` | `Utils` | `Properties.put` and a run of puts (`Put`, `PutAll`), the class `PropertiesBuilder`, and the static constructors. |
| `properties_config.dfy` | `Config` | The coercion `WrapperValue`, the class table that replaces reflection, the binding loop, the object `Bean`, and `Build`. |

**Builder.** `PropertiesBuilder` is a Dafny class whose two fields are `Option<seq<Obj>>`. `None` stands for a list that was never created. Each mutator states the new value of both fields in terms of the old ones.

`Build` and `CreateFromArray` are loops. Each is proved equal to a specification function: `Assemble` and `FromArrays`, both built from `PutAll`. The lemmas about `PutAll` state what the result means:

- it throws exactly when some key or value is null;
- otherwise it holds exactly the keys that were put;
- each key keeps the value of its last put.

**Binder.** Reflection is replaced by an explicit class table, `BeanClass`. It holds:

- the `@BeanProperties` resource, if the class has one;
- every field in declaration order, with its `@Key` (if any) and its declared type.

The resource loader is a parameter, `load: string -> Option<Props>`, where `None` means the load failed. `Build` mutates a `Bean` in place. It returns how the call ended and which resource it tried to load (`None` if it returned before loading). Its new state is tied to the function `Bind`, and the properties are proved as lemmas about `Bind` and the loop function `AssignFields`.

Two behaviours of the code are easy to miss, and the model keeps both:

- **A key without a value.** When a key has no value at its position, `build()` passes `null` to `Properties.put` (PropertiesBuilder.java:78), so it throws `NullPointerException` rather than storing an empty value. It also throws when no value was ever added, because `values.size()` is called on a list that was never created. The model raises `NullPointerException` in both cases (`Utils.AssembleThrowsIff`, `Utils.SurplusKeyThrows`).
- **A field type `wrapperValue` does not name.** `wrapperValue` returns the raw string unchanged (PropertiesConfig.java:88-90). The model does the same (`OtherType`). In Java, `setValue` can store that string only when the field's type can hold a `String` (`String`, `Object`, `CharSequence`, `Serializable`, `Comparable`). The model records it for every `OtherType` field; see "Left out".

## Model

| member | source | states |
|---|---|---|
| Decimal.DigitsValue | src/main/java/mcaligares/modules/properties/config/PropertiesConfig.java:70-83 | A digit string has a value exactly when every character is an ASCII digit; the value is below 10^length |
| Decimal.ParseDecimal | src/main/java/mcaligares/modules/properties/config/PropertiesConfig.java:70-83 | Defined exactly on an optional sign followed by one or more digits |
| Decimal.DigitsRoundTrip | src/main/java/mcaligares/modules/properties/config/PropertiesConfig.java:70-83 | Reading back the digits of a natural number gives that number |
| Decimal.ParseShow | src/main/java/mcaligares/modules/properties/config/PropertiesConfig.java:70-83 | Parsing inverts printing for every integer, negatives included |
| Decimal.SignedNumerals | src/main/java/mcaligares/modules/properties/config/PropertiesConfig.java:70-83 | A leading '+' changes nothing; a leading '-' negates |
| Decimal.ParseInteger | src/main/java/mcaligares/modules/properties/config/PropertiesConfig.java:70-83 | `Long/Integer/Short/Byte.valueOf` succeeds exactly on a numeral whose value is in the width's range, and returns that value; anything else throws NumberFormatException |
| Decimal.ParseIntegerShow | src/main/java/mcaligares/modules/properties/config/PropertiesConfig.java:70-83 | Every in-range value is read back from its own numeral |
| Decimal.ParseIntegerOverflow | src/main/java/mcaligares/modules/properties/config/PropertiesConfig.java:70-83 | One past the maximum and one below the minimum of each width throw NumberFormatException |
| Utils.Put | src/main/java/mcaligares/modules/properties/utils/PropertiesBuilder.java:78 | `Properties.put` throws NullPointerException exactly on a null key or value; otherwise it binds the key and leaves every other key as it was |
| Utils.PutAllOkIff | src/main/java/mcaligares/modules/properties/utils/PropertiesBuilder.java:77-79 | A run of puts into a fresh Properties throws exactly when some key or value is null, and then with NullPointerException |
| Utils.PutAllKeys | src/main/java/mcaligares/modules/properties/utils/PropertiesBuilder.java:77-79 | Without nulls, the result holds exactly the keys that were put |
| Utils.PutAllLastWins | src/main/java/mcaligares/modules/properties/utils/PropertiesBuilder.java:77-79 | Without nulls, each key is bound to the value of its last put, so a later duplicate overwrites an earlier one |
| Utils.PutAllMeaning | src/main/java/mcaligares/modules/properties/utils/PropertiesBuilder.java:77-79 | The three facts above, together |
| Utils.PutAllThrowsOnExtension | src/main/java/mcaligares/modules/properties/utils/PropertiesBuilder.java:77-79 | Once a run of puts has thrown, putting more pairs after it still throws |
| Utils.AssembleThrowsIff | src/main/java/mcaligares/modules/properties/utils/PropertiesBuilder.java:73-82 | With no keys (list absent or empty), `build` returns the empty map whatever the values hold. Otherwise it throws NullPointerException exactly when the values list was never created, or has fewer entries than keys, or some key or paired value is null |
| Utils.AssemblePairsByPosition | src/main/java/mcaligares/modules/properties/utils/PropertiesBuilder.java:73-82 | With at least as many values as keys and no nulls, `build` maps each key to the value at its position (the last position wins for a repeated key) and holds no other key |
| Utils.PropertiesBuilder.constructor | src/main/java/mcaligares/modules/properties/utils/PropertiesBuilder.java:33-38 | A fresh builder has neither list |
| Utils.PropertiesBuilder.AddKey | src/main/java/mcaligares/modules/properties/utils/PropertiesBuilder.java:84-87 | A null key changes nothing. Any other key is appended at the end of `keys`, creating the list if needed. `values` is untouched |
| Utils.PropertiesBuilder.AddKeys | src/main/java/mcaligares/modules/properties/utils/PropertiesBuilder.java:89-97 | Covers both overloads. A null or empty batch changes nothing; otherwise every element, nulls included, is appended in order. `values` is untouched |
| Utils.PropertiesBuilder.AddValue | src/main/java/mcaligares/modules/properties/utils/PropertiesBuilder.java:99-102 | A null value changes nothing. Any other value is appended at the end of `values`. `keys` is untouched |
| Utils.PropertiesBuilder.AddValues | src/main/java/mcaligares/modules/properties/utils/PropertiesBuilder.java:104-112 | Covers both overloads. A null or empty batch changes nothing; otherwise every element is appended in order. `keys` is untouched |
| Utils.PropertiesBuilder.AddKeyValue | src/main/java/mcaligares/modules/properties/utils/PropertiesBuilder.java:114-118 | Appends the key to `keys` and the value to `values`, with no null filtering |
| Utils.PropertiesBuilder.AddKeysValuesArrays | src/main/java/mcaligares/modules/properties/utils/PropertiesBuilder.java:120-124 | Appends the two batches independently, whatever their lengths. A null key array throws before anything changes. A null value array throws after the keys were appended |
| Utils.PropertiesBuilder.AddKeysValuesLists | src/main/java/mcaligares/modules/properties/utils/PropertiesBuilder.java:126-130 | Appends the two batches independently. Each list is created before `addAll` throws on a null batch |
| Utils.PropertiesBuilder.ClearKeys | src/main/java/mcaligares/modules/properties/utils/PropertiesBuilder.java:65-67 | Empties `keys` if it exists, and is a no-op on a fresh builder. `values` is untouched |
| Utils.PropertiesBuilder.ClearValues | src/main/java/mcaligares/modules/properties/utils/PropertiesBuilder.java:69-71 | Empties `values` if it exists, and is a no-op on a fresh builder. `keys` is untouched |
| Utils.PropertiesBuilder.Clear | src/main/java/mcaligares/modules/properties/utils/PropertiesBuilder.java:60-63 | Empties whichever lists exist |
| Utils.PropertiesBuilder.Build | src/main/java/mcaligares/modules/properties/utils/PropertiesBuilder.java:73-82 | The index loop returns exactly `Assemble` of the two lists, whose meaning is given by AssembleThrowsIff and AssemblePairsByPosition. It modifies nothing, so two calls in a row give equal results |
| Utils.CreateFromMap | src/main/java/mcaligares/modules/properties/utils/PropertiesBuilder.java:140-146 | A null map gives null. A map with a null key or value throws NullPointerException. Otherwise the result holds exactly the input's entries |
| Utils.CreateFromMapRoundTrip | src/main/java/mcaligares/modules/properties/utils/PropertiesBuilder.java:140-146 | Copying any Properties through `createFromMap` gives it back unchanged |
| Utils.ArrayEntriesMembers | src/main/java/mcaligares/modules/properties/utils/PropertiesBuilder.java:152-165 | The pairs `createFromArray` puts are exactly the entries of its non-empty rows |
| Utils.FromArraysMeaning | src/main/java/mcaligares/modules/properties/utils/PropertiesBuilder.java:148-167 | The result is null exactly when the argument is null, has length zero, or has no non-empty row. It throws NullPointerException exactly when some non-empty row has a null key |
| Utils.CreateFromArray | src/main/java/mcaligares/modules/properties/utils/PropertiesBuilder.java:148-167 | The nested loops return exactly `FromArrays`: the Properties is created at the first non-empty row, rows are put in order, and later rows overwrite earlier ones |
| Utils.FeedFiveWays | src/test/java/mcaligares/modules/properties/PropertiesTest.java:88-156 | Five ways of feeding the same two pairs all build the same map `{k1: v1, k2: v2}`: single adds, batch adds, `addKeyValue`, and `addKeysValues` in array and in list form |
| Utils.SurplusKeyThrows | src/main/java/mcaligares/modules/properties/utils/PropertiesBuilder.java:78 | A key with no value ever added, or a key beyond the last value, makes `build` throw NullPointerException |
| Utils.StaticConstructorsAgree | src/test/java/mcaligares/modules/properties/PropertiesTest.java:65-86 | `createFromMap` and `createFromArray` agree on the same two distinct entries |
| Config.WrapperValue | src/main/java/mcaligares/modules/properties/config/PropertiesConfig.java:64-91 | String, CharSequence and any other type return the raw string. Boolean is true exactly when the string equals "true" ignoring case, and never throws. Character is the first character and throws StringIndexOutOfBoundsException on "". Long, Integer, Short and Byte succeed exactly on an in-range numeral and return its value; otherwise they throw NumberFormatException |
| Config.WrapperValueRoundTrip | src/main/java/mcaligares/modules/properties/config/PropertiesConfig.java:70-83 | Every in-range integer, printed and then coerced to its width, comes back unchanged |
| Config.BooleanSpellings | src/main/java/mcaligares/modules/properties/config/PropertiesConfig.java:80-81 | "true", "TRUE" and "tRuE" give true. "false", "yes", "1", "" and " true" give false |
| Config.IntegerRejectsNonNumerals | src/main/java/mcaligares/modules/properties/config/PropertiesConfig.java:70-73 | "", "-", " 10" and "1.5" throw NumberFormatException |
| Config.ByteBounds | src/main/java/mcaligares/modules/properties/config/PropertiesConfig.java:82-83 | "128" is out of Byte range; "-128" is in range |
| Config.PlusAndLeadingZeros | src/main/java/mcaligares/modules/properties/config/PropertiesConfig.java:78-79 | "+007" coerces to the Short 7 |
| Config.KeyFields | src/main/java/mcaligares/modules/properties/config/PropertiesConfig.java:38-39 | Field discovery returns exactly the `@Key` fields and keeps names distinct. It is empty exactly when no field has `@Key` |
| Config.KeyFieldsInOrder | src/main/java/mcaligares/modules/properties/config/PropertiesConfig.java:38-39 | The discovered fields are in declaration order: a strictly increasing index map takes them onto the declared fields, and it covers every `@Key` field |
| Config.AssignFieldsOverrides | src/main/java/mcaligares/modules/properties/config/PropertiesConfig.java:52-60 | The loop only overwrites: its result on any record is that record updated with what the loop writes from scratch. Whether the loop throws does not depend on the record |
| Config.AssignmentsWritten | src/main/java/mcaligares/modules/properties/config/PropertiesConfig.java:52-60 | The loop writes only fields that have a key present in the mapping |
| Config.AssignFieldsIdempotent | src/main/java/mcaligares/modules/properties/config/PropertiesConfig.java:52-60 | Running the loop twice with the same mapping gives the same fields as running it once |
| Config.AssignFieldsKeepsOthers | src/main/java/mcaligares/modules/properties/config/PropertiesConfig.java:53-55 | A field that no entry names with a key present in the mapping keeps its prior value, or stays absent |
| Config.AssignFieldsSetsPresentKeys | src/main/java/mcaligares/modules/properties/config/PropertiesConfig.java:57-59 | When no coercion throws, each field whose key is in the mapping ends up holding `wrapperValue` of its raw value |
| Config.AssignFieldsStopsAtFailure | src/main/java/mcaligares/modules/properties/config/PropertiesConfig.java:52-60 | When a coercion throws, there is a field whose coercion threw that exception. The fields before it were assigned, and nothing from it onward was written |
| Config.BindEarlyExits | src/main/java/mcaligares/modules/properties/config/PropertiesConfig.java:32-50 | A class without `@BeanProperties`, or without `@Key` fields, returns normally with nothing loaded and nothing changed. A failed load or an empty mapping changes no field. An attempted load is of the class's own resource |
| Config.BindLoadFailure | src/main/java/mcaligares/modules/properties/config/PropertiesConfig.java:38-47 | A failed load raises PropertiesException exactly when the class has a `@Key` field, and leaves every field unchanged |
| Config.BindKeepsUnboundField | src/main/java/mcaligares/modules/properties/config/PropertiesConfig.java:52-55 | A field without `@Key`, or whose key the loaded mapping lacks, keeps its prior value |
| Config.BindSetsPresentKeys | src/main/java/mcaligares/modules/properties/config/PropertiesConfig.java:52-59 | When binding completes, every `@Key` field whose key is in the loaded mapping holds that entry coerced to the field's type |
| Config.BindCoercionFailure | src/main/java/mcaligares/modules/properties/config/PropertiesConfig.java:52-60 | A coercion exception escapes `build` only after a successful load. Fields before the failing one keep their new values, and the rest are untouched |
| Config.Bean.constructor | src/test/java/mcaligares/modules/properties/bean/BeanWithProperties.java:6-17 | An object of a given class with given initial fields |
| Config.Build | src/main/java/mcaligares/modules/properties/config/PropertiesConfig.java:30-62 | A null entity is a no-op. Otherwise the object's fields, the outcome and the resource whose load was attempted are exactly those `Bind` describes |
| Config.BindExample | src/test/java/mcaligares/modules/properties/PropertiesTest.java:43-55 | Binding the example bean against `properties.age=10`, `properties.name=Hello!` completes with `age == 10` (an Integer) and `name == "Hello!"` |

## Left out

- `createFromFile` (PropertiesBuilder.java:132-138) is left out. It is classpath resource I/O plus the JDK's `.properties` text parser.
- The resource load in `PropertiesConfig.build` is not modelled. `load` is a parameter that returns the mapping or a failure. Any exception raised during the load is modelled as that failure.
- `ReflectionUtils` (annotation lookup, field listing, `setValue`) is not part of this model. The class table `BeanClass` stands in for it, and a map update on `Bean.fields` stands in for `setValue`. Fields are assumed to be listed in declaration order.
- Config.WrapperValue: the Double and Float branches return the raw text tagged with its precision. They never throw, so the model does not capture `NumberFormatException` for a malformed floating-point string, because floating-point parsing is not modelled.
- Decimal.ParseInteger: only ASCII digits are accepted. Java's parsers also accept other Unicode decimal digits.
- Config.WrapperValue: Boolean compares "true" with ASCII case folding, not full Unicode case folding. For Character, a Dafny `char` is a Unicode scalar value, not a UTF-16 code unit.
- The `null` guard at the start of `wrapperValue` (PropertiesConfig.java:65) is not modelled. Neither argument can be null here: the field type always exists, and a loaded value is always a string.
- Field types that cannot hold a `String` are not modelled. This covers primitives such as `int` and reference types such as `java.util.Date`, `BigDecimal` or `List`. They fall into `OtherType`, and the model assigns them `Text(raw)`. In Java, `Field.set` at PropertiesConfig.java:59 rejects that value and the exception escapes `build`. The model has no failed reflective assignment.
- Config.AssignFieldsSetsPresentKeys: for an `OtherType` field whose type cannot hold a `String`, this promises that the field holds `Text(raw)`. Java throws at `setValue` instead. The model does not capture that failed assignment, for the reason in the line above.
- Config.BindSetsPresentKeys: the same as the line above. For such a field it promises `Text(raw)`, where Java's `build` would throw from `setValue`.
- Field names are assumed distinct. A `Record` is keyed by field name, and `AssignFieldsSetsPresentKeys` and `BindSetsPresentKeys` require `DistinctNames`. An inherited field that shares its name with another field would be conflated with it here.
- Builder keys and values are modelled as strings or null. Other object types are not modelled.
- Fluent chaining (each builder method returning `this`) is not modelled. It becomes a sequence of calls on one object.
- The `Hashtable` synchronisation behind `Properties` is not modelled, and neither is any concurrent use.
