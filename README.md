# Small Basic compiler and runtime: a verified model of selected parts

This project models, in Dafny, several small pieces of the Small Basic compiler and runtime and proves properties about them:

- **The runtime array value** (`ArrayValue`). It is a dictionary from string keys to values whose keys are compared ignoring case by default. It is updated in place by `SetIndex` and `RemoveIndex`. It displays as `key=escapedValue;` for each entry.
- **`TextRange`.** A pair of source positions, with its equality, hash, containment test, display string and conversion to the editor's 1-based coordinates.
- **The string helpers of `StringExtensions`.** `Join`, `ToLowerFirstChar`, `RemovePrefix`, `RemoveSuffix` and the `ToDisplayString` overloads.
- **The three collectors that walk a tree once while they are constructed:**
  - the binder's `LabelDefinitionsCollector`, which also reports duplicate labels;
  - the binder's `VariablesAndSubModulesCollector`;
  - the parser's `SubModuleNamesCollector`.
- **The two synchronous instructions of `OtherInstructions`.** `InvokeSubModuleInstruction` pushes a frame. `SetEventCallBackInstruction` registers an event callback.
- **The library generator's type-name helpers.** `ToNativeType`, `ToNativeTypeConverter` and `ToValueConstructor`.

How state is modelled:

- Code that changes state is modelled as Dafny classes whose methods declare what they modify: the array, the collectors, the diagnostic bag and the engine.
- Each such method is proved against a pure specification function on sequences, sets and maps.
- The properties the source promises are proved as lemmas about those functions.

Modules:

| file | module | what it holds |
|---|---|---|
| `wrappers.dfy` | `Wrappers` | `Option` and `Result` |
| `string_extensions.dfy` | `StringExtensions` | the string helpers, with an integer display/parse pair |
| `text_range.dfy` | `Scanning` | `TextPosition`, `TextRange`, `MonacoRange` |
| `values.dfy` | `Values` | the dictionary as an ordered list of distinct-key entries, and its key comparers |
| `array_display.dfy` | `ArrayDisplay` | the escaping, the display string, and a decoder for it |
| `array_value.dfy` | `ArrayValues` | the `ArrayValue` class |
| `bound_tree.dfy` | `BoundTree` | the bound statements and their visit order (`Flatten`) |
| `diagnostics.dfy` | `Diagnostics` | the diagnostic bag |
| `label_definitions_collector.dfy` | `LabelDefinitions` | duplicate-label detection |
| `variables_and_submodules_collector.dfy` | `VariablesAndSubModules` | written names and sub-module names |
| `sub_module_names_collector.dfy` | `Parsing` | the syntax statements and the sub-module name pre-scan |
| `other_instructions.dfy` | `Instructions` | the engine state these instructions touch, and their `Execute` |
| `library_models.dfy` | `LibraryModels` | the generator's type-name tables |

**Dictionary model.** The .NET `Dictionary` is an ordered list of entries with pairwise distinct keys under the dictionary's comparer. Assigning to an existing key replaces the value in place and keeps the key as it was first spelled. Assigning to a new key appends. Removing drops the entry and keeps the order of the rest.

**Key collisions in the display string.** Keys are written into the display string without escaping. So a key that contains `=` can make two different arrays display alike; `ArrayDisplay.UnescapedKeysCollide` exhibits such a pair. `ArrayDisplay.DecodeDisplay` proves that the display string can be decoded whenever no key contains `=`, and `ArrayDisplay.KeysWithoutEqualsNeverCollide` concludes that keys holding `;` but no `=` never collide.

## Model

| member | source | states |
|---|---|---|
| `StringExtensions.Join` | Source/SmallBasic.Utilities/Extensions/StringExtensions.cs:13 | no parts give the empty string, and otherwise the joined string starts with the first part |
| `StringExtensions.JoinLength` | Source/SmallBasic.Utilities/Extensions/StringExtensions.cs:13 | a join of n ≥ 1 parts is as long as the parts together plus n−1 separators |
| `StringExtensions.JoinAppend` | Source/SmallBasic.Utilities/Extensions/StringExtensions.cs:13 | joining two non-empty runs equals joining each and putting one separator between them |
| `StringExtensions.JoinWithoutSeparatorIsConcat` | Source/SmallBasic.Utilities/Extensions/StringExtensions.cs:13 | with the default empty separator, `Join` is plain concatenation |
| `StringExtensions.JoinSplitRoundTrip` | Source/SmallBasic.Utilities/Extensions/StringExtensions.cs:13 | when the one-character separator occurs in no part, splitting the joined string at it gives the parts back |
| `StringExtensions.ToLowerFirstChar` | Source/SmallBasic.Utilities/Extensions/StringExtensions.cs:15 | an empty string is an index error; otherwise the result has the same length, a lower-cased first character and an unchanged rest |
| `StringExtensions.ToLowerFirstCharIdempotent` | Source/SmallBasic.Utilities/Extensions/StringExtensions.cs:15 | lower-casing the first character twice is the same as once |
| `StringExtensions.LowerChar` | Source/SmallBasic.Utilities/Extensions/StringExtensions.cs:15 | an upper-case letter becomes the lower-case letter at the same place in the alphabet, the result is never upper case, and any other character is kept |
| `StringExtensions.RemovePrefix` | Source/SmallBasic.Utilities/Extensions/StringExtensions.cs:17-20 | succeeds exactly when the value starts with the prefix, and then prefix + result = value; otherwise an argument error with the source's message |
| `StringExtensions.PrependThenRemovePrefix` | Source/SmallBasic.Utilities/Extensions/StringExtensions.cs:17-20 | removing a prefix that was just put in front gives back the rest |
| `StringExtensions.RemoveSuffix` | Source/SmallBasic.Utilities/Extensions/StringExtensions.cs:22-25 | succeeds exactly when the value ends with the suffix, and then result + suffix = value; otherwise an argument error with the source's message |
| `StringExtensions.AppendThenRemoveSuffix` | Source/SmallBasic.Utilities/Extensions/StringExtensions.cs:22-25 | removing a suffix that was just appended gives back the rest |
| `StringExtensions.ToDisplayString` | Source/SmallBasic.Utilities/Extensions/StringExtensions.cs:27 | a string displays as itself |
| `StringExtensions.CharToDisplayString` | Source/SmallBasic.Utilities/Extensions/StringExtensions.cs:29 | a character displays as the one-character string holding it |
| `StringExtensions.IntToDisplayString` | Source/SmallBasic.Utilities/Extensions/StringExtensions.cs:31 | the display is non-empty and starts with a minus sign exactly for a negative integer |
| `StringExtensions.DigitsRoundTrip` | Source/SmallBasic.Utilities/Extensions/StringExtensions.cs:31 | reading back the decimal digits of a natural number gives the number |
| `StringExtensions.IntDisplayRoundTrip` | Source/SmallBasic.Utilities/Extensions/StringExtensions.cs:31 | parsing an integer's display string gives the integer back |
| `StringExtensions.IntDisplayInjective` | Source/SmallBasic.Utilities/Extensions/StringExtensions.cs:31 | two integers with the same display string are equal |
| `StringExtensions.IntDisplayAlphabet` | Source/SmallBasic.Utilities/Extensions/StringExtensions.cs:31 | an integer displays with decimal digits and a minus sign only |
| `Scanning.FromTuple` | Source/SmallBasic.Compiler/Scanning/TextRange.cs:24-27 | the range built from a tuple has the tuple's start and end |
| `Scanning.TupleRoundTrip` | Source/SmallBasic.Compiler/Scanning/TextRange.cs:24-27 | converting a tuple to a range and reading start and end back gives the tuple |
| `Scanning.Equal` | Source/SmallBasic.Compiler/Scanning/TextRange.cs:29 | `==` holds exactly when the two ranges are the same value |
| `Scanning.NotEqual` | Source/SmallBasic.Compiler/Scanning/TextRange.cs:31 | `!=` holds exactly when the two ranges are different values |
| `Scanning.EqualsObject` | Source/SmallBasic.Compiler/Scanning/TextRange.cs:33 | `Equals(object)` holds exactly for a boxed copy of this range |
| `Scanning.EqualityIsValueEquality` | Source/SmallBasic.Compiler/Scanning/TextRange.cs:29-37 | `==` holds exactly for equal start and end, is an equivalence, `!=` is its negation, and `Equals(object)` agrees with it on a boxed range and is false on anything else |
| `Scanning.HashCode` | Source/SmallBasic.Compiler/Scanning/TextRange.cs:35 | XOR-ing the code with either end's hash gives back the other end's hash |
| `Scanning.HashConsistentWithEquality` | Source/SmallBasic.Compiler/Scanning/TextRange.cs:35 | equal ranges have equal hash codes, for any position hash |
| `Scanning.HashIgnoresOrientation` | Source/SmallBasic.Compiler/Scanning/TextRange.cs:35 | the XOR hash gives a range and its reverse the same code, and a one-position range (start = end) the code 0 |
| `Scanning.Contains` | Source/SmallBasic.Compiler/Scanning/TextRange.cs:41 | a range contains a position only when it is well ordered, and then the position's line lies between the range's lines |
| `Scanning.PositionOrderIsTotal` | Source/SmallBasic.Compiler/Scanning/TextRange.cs:41 | the position order used by `Contains` is a total order |
| `Scanning.ContainsEnds` | Source/SmallBasic.Compiler/Scanning/TextRange.cs:41 | a range contains some position exactly when start ≤ end, and then it contains both ends |
| `Scanning.ContainsIsConvex` | Source/SmallBasic.Compiler/Scanning/TextRange.cs:41 | a position between two contained positions is contained |
| `Scanning.RangeToDisplayString` | Source/SmallBasic.Compiler/Scanning/TextRange.cs:39 | the display is wrapped in parentheses; `DisplayInjective` shows it determines the range |
| `Scanning.PositionDisplayInjective` | Source/SmallBasic.Compiler/Scanning/TextRange.cs:39 | positions with the same display string are equal |
| `Scanning.DisplayInjective` | Source/SmallBasic.Compiler/Scanning/TextRange.cs:39 | ranges with the same display string `(start, end)` are equal |
| `Scanning.ToMonacoRange` | Source/SmallBasic.Compiler/Scanning/TextRange.cs:43-49 | lines and the start column gain one, the end column gains two |
| `Scanning.MonacoRoundTrip` | Source/SmallBasic.Compiler/Scanning/TextRange.cs:43-49 | the conversion to editor coordinates is a bijection |
| `Scanning.MonacoCoversContainedColumns` | Source/SmallBasic.Compiler/Scanning/TextRange.cs:43-49 | on one line, the editor's half-open column span covers exactly the positions `Contains` accepts |
| `Values.KeyEqualsIsEquivalence` | Source/SmallBasic.Compiler/Runtime/Values/ArrayValue.cs:18 | both comparers are equivalences, and ignoring case identifies at least what ordinal equality does |
| `Values.KeyEquals` | Source/SmallBasic.Compiler/Runtime/Values/ArrayValue.cs:18 | equal keys are always equal to the comparer, the ordinal comparer is exactly equality, and ignoring case never identifies keys of different lengths |
| `Values.IndexOf` | Source/SmallBasic.Compiler/Runtime/Values/ArrayValue.cs:47 | finds the first entry whose key equals the given one, and finds none exactly when no key equals it |
| `Values.HasKey` | Source/SmallBasic.Compiler/Runtime/Values/ArrayValue.cs:47 | a key is present exactly when some entry's key equals it under the comparer |
| `Values.Lookup` | Source/SmallBasic.Compiler/Runtime/Values/ArrayValue.cs:51 | a value is found exactly when the key is present; `LookupFindsEntry` shows it is the value of the entry whose key equals it |
| `Values.LookupFindsEntry` | Source/SmallBasic.Compiler/Runtime/Values/ArrayValue.cs:51 | under distinct keys, looking up any key equal to an entry's key gives that entry's value |
| `Values.IndexOfUnique` | Source/SmallBasic.Compiler/Runtime/Values/ArrayValue.cs:14 | with distinct keys, an entry whose key matches is the one the search finds |
| `Values.SetEntry` | Source/SmallBasic.Compiler/Runtime/Values/ArrayValue.cs:34-37 | existing keys keep their place and spelling, a new key is appended with the value, the count grows only for a new key, and some entry equal to the key holds the value |
| `Values.SetEntryKeepsKeysDistinct` | Source/SmallBasic.Compiler/Runtime/Values/ArrayValue.cs:34-37 | assignment keeps the keys distinct, adds an entry only for a new key, and keeps every existing key as spelled |
| `Values.SetEntryFindsValue` | Source/SmallBasic.Compiler/Runtime/Values/ArrayValue.cs:34-37 | after assignment, every key equal to the assigned one looks up the new value |
| `Values.SetEntryKeepsOthers` | Source/SmallBasic.Compiler/Runtime/Values/ArrayValue.cs:34-37 | assignment leaves the lookup of every other key unchanged |
| `Values.OverwriteKeepsOriginalKey` | Source/SmallBasic.Compiler/Runtime/Values/ArrayValue.cs:36 | assigning `KEY` after `Key` replaces the value and keeps the spelling `Key` |
| `Values.RemoveEntry` | Source/SmallBasic.Compiler/Runtime/Values/ArrayValue.cs:39-45 | one entry fewer exactly when the key was present, nothing changes otherwise, and no entry is invented |
| `Values.RemoveEntryKeepsKeysDistinct` | Source/SmallBasic.Compiler/Runtime/Values/ArrayValue.cs:39-45 | removal keeps the keys distinct and drops one entry exactly when the key was present |
| `Values.RemoveEntryDropsKey` | Source/SmallBasic.Compiler/Runtime/Values/ArrayValue.cs:39-45 | after removal no key equals the removed one |
| `Values.RemoveEntryKeepsOthers` | Source/SmallBasic.Compiler/Runtime/Values/ArrayValue.cs:39-45 | removal leaves the lookup of every other key unchanged |
| `ArrayValues.ArrayValue.constructor` | Source/SmallBasic.Compiler/Runtime/Values/ArrayValue.cs:16-19 | a new array is empty and compares keys ignoring case |
| `ArrayValues.ArrayValue.FromContents` | Source/SmallBasic.Compiler/Runtime/Values/ArrayValue.cs:21-24 | an array over given contents takes their comparer and entries |
| `ArrayValues.ArrayValue.Keys` | Source/SmallBasic.Compiler/Runtime/Values/ArrayValue.cs:26 | the keys in enumeration order, one per entry |
| `ArrayValues.ArrayValue.Values` | Source/SmallBasic.Compiler/Runtime/Values/ArrayValue.cs:28 | the values in the same order as the keys |
| `ArrayValues.ArrayValue.Count` | Source/SmallBasic.Compiler/Runtime/Values/ArrayValue.cs:30 | the count is the number of keys |
| `ArrayValues.ArrayValue.Get` | Source/SmallBasic.Compiler/Runtime/Values/ArrayValue.cs:32 | the indexer fails with `KeyNotFound` exactly when no key matches, and otherwise returns the matching entry's value |
| `ArrayValues.ArrayValue.SetIndex` | Source/SmallBasic.Compiler/Runtime/Values/ArrayValue.cs:34-37 | keeps keys distinct; matching keys then read the new value, all other keys read what they read before, and the count grows by one only for a new key |
| `ArrayValues.ArrayValue.RemoveIndex` | Source/SmallBasic.Compiler/Runtime/Values/ArrayValue.cs:39-45 | keeps keys distinct; the key is then absent, all other keys read what they read before, and the count drops by one only if the key was present |
| `ArrayValues.ArrayValue.ContainsKey` | Source/SmallBasic.Compiler/Runtime/Values/ArrayValue.cs:47 | true exactly when some key equals the given one under the comparer |
| `ArrayValues.ArrayValue.TryGetValue` | Source/SmallBasic.Compiler/Runtime/Values/ArrayValue.cs:51 | finds a value exactly when the key is contained, and it is the matching entry's value |
| `ArrayValues.ArrayValue.ToDisplayString` | Source/SmallBasic.Compiler/Runtime/Values/ArrayValue.cs:53-82 | the builder loop produces the display of all entries in enumeration order |
| `ArrayValues.AppendEscaped` | Source/SmallBasic.Compiler/Runtime/Values/ArrayValue.cs:57-72 | the escape loop appends the escaped value to the builder |
| `ArrayValues.DisplayAfterOneAssignment` | Source/SmallBasic.Compiler/Runtime/Values/ArrayValue.cs:53-82 | a new array with `a` set to `1` displays as `a=1;` |
| `ArrayValues.ArrayValue.ToBoolean` | Source/SmallBasic.Compiler/Runtime/Values/ArrayValue.cs:86 | an array is never true |
| `ArrayValues.ArrayValue.ToNumber` | Source/SmallBasic.Compiler/Runtime/Values/ArrayValue.cs:88 | an array counts as zero |
| `ArrayValues.ArrayValue.ToArray` | Source/SmallBasic.Compiler/Runtime/Values/ArrayValue.cs:90 | converting an array to an array gives the same object, not a copy |
| `ArrayDisplay.Escape` | Source/SmallBasic.Compiler/Runtime/Values/ArrayValue.cs:57-72 | escaping never shortens the value; `UnescapeEscape` is its inverse |
| `ArrayDisplay.EscapeOfPlain` | Source/SmallBasic.Compiler/Runtime/Values/ArrayValue.cs:57-72 | a value with no `;`, `=` or `\` is copied unchanged |
| `ArrayDisplay.EscapeLength` | Source/SmallBasic.Compiler/Runtime/Values/ArrayValue.cs:57-72 | escaping adds exactly one backslash per `;`, `=` and `\` |
| `ArrayDisplay.EscapeAppend` | Source/SmallBasic.Compiler/Runtime/Values/ArrayValue.cs:57-72 | escaping works character by character |
| `ArrayDisplay.UnescapeEscape` | Source/SmallBasic.Compiler/Runtime/Values/ArrayValue.cs:57-72 | dropping the escape backslashes gives the value back |
| `ArrayDisplay.EscapeInjective` | Source/SmallBasic.Compiler/Runtime/Values/ArrayValue.cs:57-72 | different values escape differently |
| `ArrayDisplay.DisplayEntry` | Source/SmallBasic.Compiler/Runtime/Values/ArrayValue.cs:74-79 | an entry displays as at least its key plus the `=` and `;` around the value; `DisplayEntryRoundTrip` reads the key and value back |
| `ArrayDisplay.DisplayEntryRoundTrip` | Source/SmallBasic.Compiler/Runtime/Values/ArrayValue.cs:74-79 | when the key holds no `=`, decoding one entry's display gives back its key and its value's display |
| `ArrayDisplay.DisplayEntries` | Source/SmallBasic.Compiler/Runtime/Values/ArrayValue.cs:74-81 | the display is empty exactly for an array with no entries; `DecodeDisplay` recovers the entries from it |
| `ArrayDisplay.DisplayEntriesAppend` | Source/SmallBasic.Compiler/Runtime/Values/ArrayValue.cs:74-79 | the display grows by `key=escapedValue;` per entry |
| `ArrayDisplay.DecodeDisplay` | Source/SmallBasic.Compiler/Runtime/Values/ArrayValue.cs:74-81 | when no key contains `=`, decoding the display gives back every key and every value's display, in order |
| `ArrayDisplay.UnescapedKeysCollide` | Source/SmallBasic.Compiler/Runtime/Values/ArrayValue.cs:76-77 | because keys are not escaped, `{"x=1;y": 2}` and `{"x": 1, "y": 2}` both display as `x=1;y=2;` |
| `ArrayDisplay.KeysWithoutEqualsNeverCollide` | Source/SmallBasic.Compiler/Runtime/Values/ArrayValue.cs:74-81 | when no key of either array contains `=`, equal displays mean equal keys and value displays, in order, so only a key holding `=` can cause a collision |
| `Diagnostics.DiagnosticBag.ReportTwoLabelsWithTheSameName` | Source/SmallBasic.Compiler/Binding/Visitors/LabelDefinitionsCollector.cs:27 | appends one duplicate-label diagnostic with the label-token range and the label name |
| `LabelDefinitions.LabelDefinitionsCollector.constructor` | Source/SmallBasic.Compiler/Binding/Visitors/LabelDefinitionsCollector.cs:13-21 | starting from an empty set, the labels are the names of all label statements of the module, and the reports appended are those of the occurrences whose name was seen before, in visit order |
| `LabelDefinitions.LabelDefinitionsCollector.VisitLabelStatement` | Source/SmallBasic.Compiler/Binding/Visitors/LabelDefinitionsCollector.cs:23-29 | the name joins the set, and a diagnostic for this occurrence is appended exactly when the name was already there |
| `LabelDefinitions.LabelDefinitionsCollector.VisitBlock` | Source/SmallBasic.Compiler/Binding/Visitors/LabelDefinitionsCollector.cs:18 | visiting a block adds its label names and reports its repeats against the names seen so far |
| `LabelDefinitions.LabelDefinitionsCollector.VisitStatement` | Source/SmallBasic.Compiler/Binding/Visitors/LabelDefinitionsCollector.cs:18 | visiting a statement adds and reports as visiting it and its nested statements in order |
| `LabelDefinitions.LabelDefinitionsCollector.VisitIfStatement` | Source/SmallBasic.Compiler/Binding/Visitors/LabelDefinitionsCollector.cs:18 | an `If` is visited as its then-part followed by its else-part |
| `LabelDefinitions.ReportedAppend` | Source/SmallBasic.Compiler/Binding/Visitors/LabelDefinitionsCollector.cs:13-28 | visiting two runs in turn reports the second run against all names seen in the first |
| `LabelDefinitions.VisitInTurn` | Source/SmallBasic.Compiler/Binding/Visitors/LabelDefinitionsCollector.cs:13-28 | visiting two runs in turn leaves the same set and the same diagnostics as visiting them as one |
| `LabelDefinitions.ReportedIsRepeats` | Source/SmallBasic.Compiler/Binding/Visitors/LabelDefinitionsCollector.cs:25-28 | the occurrences reported are exactly those whose name occurs earlier, by an independent definition |
| `LabelDefinitions.RepeatsMembership` | Source/SmallBasic.Compiler/Binding/Visitors/LabelDefinitionsCollector.cs:25-28 | an occurrence is reported exactly when it stands at a position whose name already occurs before it, so a first occurrence is never reported |
| `LabelDefinitions.ReportedCount` | Source/SmallBasic.Compiler/Binding/Visitors/LabelDefinitionsCollector.cs:25-28 | a name occurring n > 0 times in a module is reported n−1 times |
| `LabelDefinitions.DistinctLabelsReportNothing` | Source/SmallBasic.Compiler/Binding/Visitors/LabelDefinitionsCollector.cs:25 | pairwise distinct labels produce no diagnostics |
| `LabelDefinitions.LabelsAreCaseSensitive` | Source/SmallBasic.Compiler/Binding/Visitors/LabelDefinitionsCollector.cs:13 | `Foo` and `foo` are different labels and are not reported |
| `VariablesAndSubModules.VariablesAndSubModulesCollector.constructor` | Source/SmallBasic.Compiler/Binding/Visitors/VariablesAndSubModulesCollector.cs:13-22 | after visiting the main module and then each sub-module, the names are exactly the assigned names of all bodies plus the sub-module names |
| `VariablesAndSubModules.VariablesAndSubModulesCollector.VisitBlock` | Source/SmallBasic.Compiler/Binding/Visitors/VariablesAndSubModulesCollector.cs:15 | visiting a block adds the names its statements assign, nested ones included |
| `VariablesAndSubModules.VariablesAndSubModulesCollector.VisitStatement` | Source/SmallBasic.Compiler/Binding/Visitors/VariablesAndSubModulesCollector.cs:24-34 | an assignment adds its target variable or array, and nested bodies are reached through the base visit |
| `VariablesAndSubModules.VariablesAndSubModulesCollector.VisitSubModule` | Source/SmallBasic.Compiler/Binding/Visitors/VariablesAndSubModulesCollector.cs:36-40 | a sub-module adds its name and then what its body assigns |
| `VariablesAndSubModules.AssignedNamesMembership` | Source/SmallBasic.Compiler/Binding/Visitors/VariablesAndSubModulesCollector.cs:24-34 | a name is added by a run of statements exactly when one of them assigns to it |
| `VariablesAndSubModules.SubModuleNamesMembership` | Source/SmallBasic.Compiler/Binding/Visitors/VariablesAndSubModulesCollector.cs:16-19 | a name is added by the sub-modules exactly when it names one or is assigned in one's body |
| `VariablesAndSubModules.SubModuleNamesByStatement` | Source/SmallBasic.Compiler/Binding/Visitors/VariablesAndSubModulesCollector.cs:24-40 | a name is added by the sub-modules exactly when it names one or some visited statement of one's body assigns to it |
| `VariablesAndSubModules.CollectedNamesMembership` | Source/SmallBasic.Compiler/Binding/Visitors/VariablesAndSubModulesCollector.cs:24-40 | a name is collected exactly when it is assigned in the main module or a sub-module body, or names a sub-module; nothing else is added |
| `VariablesAndSubModules.SubModuleOrderIsIrrelevant` | Source/SmallBasic.Compiler/Binding/Visitors/VariablesAndSubModulesCollector.cs:16 | the collected names do not depend on the order in which the sub-modules are enumerated |
| `VariablesAndSubModules.ReadOnlyNamesAreNotCollected` | Source/SmallBasic.Compiler/Binding/Visitors/VariablesAndSubModulesCollector.cs:24-40 | in `x = y` only `x` is collected, and a `For` identifier alone is not |
| `Parsing.NameSet` | Source/SmallBasic.Compiler/Parsing/Visitors/SubModuleNamesCollector.cs:11 | the set holds exactly the names met, duplicates collapsed |
| `Parsing.SubModuleNamesCollector.constructor` | Source/SmallBasic.Compiler/Parsing/Visitors/SubModuleNamesCollector.cs:13-18 | the tree is walked once, and the names are exactly the name-token texts of the sub-module statements met |
| `Parsing.SubModuleNamesCollector.VisitBlock` | Source/SmallBasic.Compiler/Parsing/Visitors/SubModuleNamesCollector.cs:15 | visiting a block adds the sub-module names it declares |
| `Parsing.SubModuleNamesCollector.VisitStatement` | Source/SmallBasic.Compiler/Parsing/Visitors/SubModuleNamesCollector.cs:20-23 | a sub-module statement adds its name token's text and its body is not visited |
| `Parsing.SubModuleBodiesAreIgnored` | Source/SmallBasic.Compiler/Parsing/Visitors/SubModuleNamesCollector.cs:20-23 | a sub-module contributes only its own name, whatever its body declares |
| `Parsing.DuplicateDeclarationsCollapse` | Source/SmallBasic.Compiler/Parsing/Visitors/SubModuleNamesCollector.cs:22 | two declarations of one name collect it once |
| `Parsing.NamesAreCaseSensitive` | Source/SmallBasic.Compiler/Parsing/Visitors/SubModuleNamesCollector.cs:11 | `Foo` and `foo` are collected as two names |
| `Instructions.LibraryAccessOf` | Source/SmallBasic.Compiler/Runtime/Instructions/OtherInstructions.cs:39-77 | the method, property setter or getter each library instruction looks up, always in the instruction's own library; none for sub-module invocation |
| `Instructions.AsyncExactlyWhenCallingLibrary` | Source/SmallBasic.Compiler/Runtime/Instructions/OtherInstructions.cs:10-98 | an instruction is asynchronous exactly when its `Execute` looks a member up in the library registry; sub-module invocation and callback registration are the synchronous ones |
| `Instructions.PushFrame` | Source/SmallBasic.Compiler/Runtime/Instructions/OtherInstructions.cs:20-24 | an unknown sub-module is a failed lookup; otherwise the stack grows by one frame for that module at the top and the frames below are unchanged |
| `Instructions.ReturnUndoesPush` | Source/SmallBasic.Compiler/Runtime/Instructions/OtherInstructions.cs:23 | dropping the pushed top frame gives back the stack the invocation started from |
| `Instructions.RegisterCallback` | Source/SmallBasic.Compiler/Runtime/Instructions/OtherInstructions.cs:97 | the event maps to the given sub-module and every other event keeps its callback |
| `Instructions.LastRegistrationWins` | Source/SmallBasic.Compiler/Runtime/Instructions/OtherInstructions.cs:97 | registering again for the same event replaces the earlier callback |
| `Instructions.SmallBasicEngine.SetEventCallback` | Source/SmallBasic.Compiler/Runtime/Instructions/OtherInstructions.cs:97 | the engine's callback table is updated by `RegisterCallback` |
| `Instructions.Execute` | Source/SmallBasic.Compiler/Runtime/Instructions/OtherInstructions.cs:20-98 | invoking a sub-module pushes its frame (or fails and changes nothing); setting a callback forwards exactly its stored library, event and sub-module and leaves the stack alone |
| `LibraryModels.ToNativeType` | Source/SmallBasic.Generators/Libraries/Models.cs:13-21 | defined exactly on the five value type names, failing with `UnexpectedValue` on any other |
| `LibraryModels.NativeTypesAreDistinct` | Source/SmallBasic.Generators/Libraries/Models.cs:13-21 | different type names map to different native types |
| `LibraryModels.ToNativeTypeConverter` | Source/SmallBasic.Generators/Libraries/Models.cs:23-34 | defined exactly on the five names; every converter but `BaseValue`'s is a member call starting with `.` |
| `LibraryModels.ToValueConstructor` | Source/SmallBasic.Generators/Libraries/Models.cs:36-47 | defined exactly on the five names; `BaseValue` and `ArrayValue` return the value unchanged |
| `LibraryModels.ValueConstructorWraps` | Source/SmallBasic.Generators/Libraries/Models.cs:36-47 | the result is the value between the type's opening and closing wrapper text |
| `LibraryModels.ValueConstructorInjective` | Source/SmallBasic.Generators/Libraries/Models.cs:36-47 | for one type name, different values give different expressions |
| `LibraryModels.SameDomain` | Source/SmallBasic.Generators/Libraries/Models.cs:13-47 | the three helpers accept the same five names and fail with the same error on any other |

## Left out

- Culture-sensitive behaviour is replaced by ordinal behaviour. `RemovePrefix` and `RemoveSuffix` compare with the current culture; the model compares ordinally. The `char` and `int` displays use the current culture; the model uses the invariant form (digits with a leading `-`).
- `StringExtensions.LowerChar` maps only ASCII `A`–`Z`. .NET's invariant lower-casing covers all of Unicode.
- Ignoring case in dictionary keys is modelled as ASCII upper-case folding. It is not the ordinal-ignore-case rule of .NET for all of Unicode.
- `TextPosition` is not part of this model. Its order is assumed to be line-then-column, and its display is assumed to be `(line, column)`.
- `Scanning.HashCode`: the hash of a position is a parameter, so only consistency with equality and the XOR behaviour are stated, not concrete values.
- `ArrayValues.ArrayValue`: the enumeration order of a .NET `Dictionary` after removals is an implementation detail. The model keeps insertion order, and a new key is always appended.
- `ArrayValues.ArrayValue.FromContents`: the dictionary passed in is held by value. Later changes through another reference to the same dictionary are not modelled.
- Arrays nested inside an array are held as values (`BaseValue.Nested`), not shared references.
- The value kinds other than arrays (numbers, strings, booleans) are modelled only through their display strings.
- `ArrayValues.ArrayValue.ToNumber`: `decimal` is modelled as `real`.
- `GetEnumerator` is represented by the entry order that `Keys` and `Values` expose.
- The asynchronous `MethodInvocationInstruction`, `StorePropertyInstruction` and `LoadPropertyInstruction` are left out. Their `Execute` calls into host library code through a global registry, so only their classification is modelled.
- The engine (`SmallBasicEngine`), its `Frame` class and its `SetEventCallback` are not part of this model's source. A frame is modelled only by its module, and `SetEventCallback` is modelled as recording the sub-module for the (library, event) pair.
- The base visitors (`BaseBoundNodeVisitor`, `BaseSyntaxNodeVisitor`) are not part of this model's source. They are assumed to visit every statement in order and then the statements nested in it, an `If`'s then-part before its else-part.
- Expressions are not visited for statements, since none of the collectors acts on them.
- The bound tree and the syntax tree are reduced to the statement forms these collectors distinguish.
- The diagnostic bag is reduced to the one report the collectors use.
- The XML manifest classes of `Models.cs` (from line 50 on) are plain data holders and are left out.
- The numeric display used inside `TextPosition` and `ToDisplayString(int)` is unbounded. The 32-bit range of `int` does not affect any property stated here.
