# awrence `Hash#to_camel_keys`, modelled in Dafny

The awrence gem adds `to_camel_keys` to Ruby's `Hash`. It returns a deep copy of a
nested Hash/Array structure in which every String or Symbol Hash key is rewritten
from snake_case to camelBack (`first_key` → `firstKey`) or, with `first_upper: true`,
to PascalCase (`FirstKey`). Slashes become Ruby namespace separators
(`my_first/key` → `myFirst::Key`) unless `ignore_slash: true` is given. Values are
never touched.

The model follows `lib/awrence/core_extensions/hash/to_camel_keys.rb` function by
function. The code is pure: one recursive walk, one case split on the key's kind,
and three string passes. So the model is made of datatypes, functions and lemmas.

| file | module | contents |
|---|---|---|
| `ruby_hash.dfy` | `RubyHash` | Ruby's insertion-ordered Hash as a list of entries: `h[k]`, `h[k] = v`, `Hash[pairs]`, `merge` |
| `values.dfy` | `RubyValues` | Keys, values, Ruby truthiness, and the one error (`NoMethodError`) with its propagation |
| `camelize.dfy` | `KeyCamelizer` | `camelize`: the `(^\|_)(.)` pass, the first-character rule, the `\/(.?)` pass |
| `to_camel_keys.dfy` | `CamelKeys` | `to_camel_keys`, `camelize_keys`, `camel_case_key` |
| `camelize_facts.dfy` | `CamelizeFacts` | What `camelize` promises: word joining, the snake_case inverse, slashes as namespaces, the test keys |
| `to_camel_keys_facts.dfy` | `CamelKeysFacts` | What the walk promises: shape, order, duplicate keys, key kinds, round trip, options, the test hashes |
| `nested_example.dfy` | `NestedExample` | The three-level produce/peanut example of the test suite, in both cases |

Points where the model is explicit about Ruby:

- Regexes are scanned as Ruby scans them. `^` matches at the start of the string and after every newline; `.` never matches a newline. At a line start the `^` alternative wins, so the first character is consumed even when it is `_`: `_foo` stays `_foo`, while `__foo` becomes `_Foo`.
- A camelBack key with no characters makes both `snake_word.chars.first` and `word[1..-1]` nil, and `nil + nil` raises NoMethodError. The model returns `Err(NoMethodError)`. The error leaves the walk like an exception leaves `map`, and `ToCamelKeys` fails exactly when that happens somewhere in the data.
- `Hash[pairs]` stores the pairs left to right. When two keys camelize to the same key, the later value wins and the entry stays at the first position.
- `opts.merge(options)` stores the caller's options over the defaults. The reads `options[:first_upper]` (line 32) and `options[:ignore_slash]` (line 33) take an option as set only when its value is truthy (not `nil`, not `false`).

## Model

| member | source | states |
|---|---|---|
| KeyCamelizer.Upcase | lib/awrence/core_extensions/hash/to_camel_keys.rb:31 | A lower-case ASCII letter becomes its upper-case letter (code point minus 32); every other character is unchanged |
| KeyCamelizer.CamelizeUnderscores | lib/awrence/core_extensions/hash/to_camel_keys.rb:31 | The underscore pass never lengthens the text and keeps non-empty text non-empty |
| KeyCamelizer.NamespaceSlashes | lib/awrence/core_extensions/hash/to_camel_keys.rb:33 | The slash pass never shortens the text and keeps a first character that is not a slash |
| KeyCamelizer.Camelize | lib/awrence/core_extensions/hash/to_camel_keys.rb:30-35 | Fails exactly on an empty key in camelBack. Otherwise, unless the key starts with `/` and slashes are not ignored (`/foo` gives `::Foo`), the first character is the key's own (camelBack) or upper-cased (`first_upper`) |
| CamelizeFacts.FirstCharThenRest | lib/awrence/core_extensions/hash/to_camel_keys.rb:31 | At the start of the text, `^` consumes the first character; the scan then goes on from index 1 |
| CamelizeFacts.CamelBackKeepsFirstChar | lib/awrence/core_extensions/hash/to_camel_keys.rb:32 | In camelBack the result is the key's first character, then the underscore pass of the rest, then the slash pass unless it is ignored |
| CamelizeFacts.UnderscorePrefix | lib/awrence/core_extensions/hash/to_camel_keys.rb:31 | Text with no underscore or newline passes through the underscore pass unchanged, whatever follows it |
| CamelizeFacts.NoSlashUnchanged | lib/awrence/core_extensions/hash/to_camel_keys.rb:33 | Text with no slash is left alone by the slash pass |
| CamelizeFacts.CamelizeWithoutSeparators | lib/awrence/core_extensions/hash/to_camel_keys.rb:30-35 | A key with no `_`, `/` or newline is unchanged in camelBack; with `first_upper` only its first character is upper-cased |
| CamelizeFacts.SnakeRoundTrip | lib/awrence/core_extensions/hash/to_camel_keys.rb:30-35 | A snake_case identifier camelizes without error, loses every underscore, and `Decamelize` gives it back, with either option |
| CamelizeFacts.CamelizeInjective | lib/awrence/core_extensions/hash/to_camel_keys.rb:30-35 | Distinct snake_case identifiers never camelize to the same key |
| CamelizeFacts.SlashesAsNamespaces | lib/awrence/core_extensions/hash/to_camel_keys.rb:33 | Text split at single slashes comes out joined by `::`, every segment after the first with its first character upper-cased; a trailing slash becomes a trailing `::` |
| CamelizeFacts.CamelizeLeadingPiece | lib/awrence/core_extensions/hash/to_camel_keys.rb:30-35 | A leading run free of `_` and newlines becomes the lead word; the rest goes through the underscore pass alone, then the slash pass |
| CamelizeFacts.CamelizeWordThen | lib/awrence/core_extensions/hash/to_camel_keys.rb:30-35 | A leading word followed by slash-free text: only the text after the word is rewritten |
| CamelizeFacts.CamelizeWords | lib/awrence/core_extensions/hash/to_camel_keys.rb:30-35 | Words joined by single underscores become the lead word followed by every later word capitalized |
| CamelizeFacts.TwoWords | lib/awrence/core_extensions/hash/to_camel_keys.rb:30-35 | `a_b` gives `aB`, or `AB` with `first_upper` |
| CamelizeFacts.ThreeWords | lib/awrence/core_extensions/hash/to_camel_keys.rb:30-35 | `a_b_c` gives `aBC`, or `ABC` with `first_upper` |
| CamelizeFacts.FourWords | lib/awrence/core_extensions/hash/to_camel_keys.rb:30-35 | `a_b_c_d` gives `aBCD`, or `ABCD` with `first_upper` |
| CamelizeFacts.TrailingUnderscoreKept | lib/awrence/core_extensions/hash/to_camel_keys.rb:31 | Words joined by single underscores and ending in `_` camelize as without it, and the trailing underscore, having no character to capture, is kept (`a_b_` gives `aB_`) |
| CamelizeFacts.NamespacedKey | lib/awrence/core_extensions/hash/to_camel_keys.rb:31-33 | `a_b/c` gives `aB::C`, or `aB/c` when slashes are ignored |
| CamelizeFacts.CamelizeFirstKey | test/awrence/hash/to_camel_keys_test.rb:15-19 | `first_key` gives `firstKey` in camelBack and `FirstKey` with `first_upper` |
| CamelizeFacts.CamelizeSlashKey | lib/awrence/core_extensions/hash/to_camel_keys.rb:33 | `my_first/key` gives `myFirst::Key` |
| CamelizeFacts.CamelizeSlashKeyIgnored | test/awrence/hash/to_camel_keys_test.rb:145-153 | With `ignore_slash`, `my_first/key` gives `myFirst/key` |
| CamelizeFacts.CamelizeSpacesKey | test/awrence/hash/to_camel_keys_test.rb:159-175 | `With Spaces` comes back unchanged, whatever the options |
| CamelizeFacts.CamelizeLeadingUnderscores | lib/awrence/core_extensions/hash/to_camel_keys.rb:31 | The `^` alternative consumes a leading underscore: `_foo` stays `_foo`, `__foo` becomes `_Foo` |
| RubyHash.FirstIndex | lib/awrence/core_extensions/hash/to_camel_keys.rb:14 | The first position of a key in a list, or the list's length exactly when the key is absent |
| RubyHash.Lookup | lib/awrence/core_extensions/hash/to_camel_keys.rb:32-33 | `h[k]` is present exactly for the keys of `h`, and is the value stored under that key |
| RubyHash.Store | lib/awrence/core_extensions/hash/to_camel_keys.rb:14 | `h[k] = v` appends a new key at the end, and replaces the value of an existing key in place |
| RubyHash.StoreLookup | lib/awrence/core_extensions/hash/to_camel_keys.rb:14 | After `h[k] = v`, `h[k]` is `v` and every other key reads as before |
| RubyHash.StoreKeys | lib/awrence/core_extensions/hash/to_camel_keys.rb:14 | `h[k] = v` adds `k` to the keys and keeps them distinct |
| RubyHash.StoreAllKeys | lib/awrence/core_extensions/hash/to_camel_keys.rb:14 | Storing a list of pairs adds exactly their keys and keeps the keys distinct |
| RubyHash.StoreAllLookup | lib/awrence/core_extensions/hash/to_camel_keys.rb:14 | After storing a list of pairs, each listed key reads its last value; every other key reads as before |
| RubyHash.FromPairs | lib/awrence/core_extensions/hash/to_camel_keys.rb:14 | `Hash[pairs]` has distinct keys, exactly the keys of the pairs, and no more entries than pairs |
| RubyHash.FromPairsLastWins | lib/awrence/core_extensions/hash/to_camel_keys.rb:14 | In `Hash[pairs]` the last value given for a key wins |
| RubyHash.FromPairsOrder | lib/awrence/core_extensions/hash/to_camel_keys.rb:14 | The keys of `Hash[pairs]` come in the order of their first occurrence in the pairs |
| RubyHash.FromPairsDistinct | lib/awrence/core_extensions/hash/to_camel_keys.rb:14 | `Hash[pairs]` over distinct keys is the pairs themselves, in order |
| RubyHash.Merge | lib/awrence/core_extensions/hash/to_camel_keys.rb:4 | `a.merge(b)` has the keys of both and keeps them distinct |
| RubyHash.MergeLookup | lib/awrence/core_extensions/hash/to_camel_keys.rb:4 | In `a.merge(b)` a key of `b` reads `b`'s value; any other key reads `a`'s |
| RubyValues.Collect | lib/awrence/core_extensions/hash/to_camel_keys.rb:12 | A list of computations succeeds exactly when each one does, and then yields their results in order |
| CamelKeys.MergeOptions | lib/awrence/core_extensions/hash/to_camel_keys.rb:4 | Each option is off by default and on exactly when the caller gave it a truthy value |
| CamelKeys.CamelCaseKey | lib/awrence/core_extensions/hash/to_camel_keys.rb:20-28 | Fails exactly on an empty String or Symbol key in camelBack; a key that is neither a String nor a Symbol is returned as is; key kind is kept |
| CamelKeys.EntryPair | lib/awrence/core_extensions/hash/to_camel_keys.rb:14 | The pair succeeds exactly when the renamed key and the walked value both do, and then holds them, key first |
| CamelKeys.CamelizeKeys | lib/awrence/core_extensions/hash/to_camel_keys.rb:9-18 | Fails exactly when camelBack meets an empty key at some depth. A scalar is returned unchanged. An Array keeps its length. A Hash has distinct keys and never grows |
| CamelKeys.CamelizeItems | lib/awrence/core_extensions/hash/to_camel_keys.rb:12 | The Array's walk succeeds exactly when every element's does, and element `i` of the result is the walk of element `i` |
| CamelKeys.CamelizePairs | lib/awrence/core_extensions/hash/to_camel_keys.rb:14 | Pair `i` is the renamed key and the walked value of entry `i`, and the list succeeds exactly when each of them does |
| CamelKeys.ToCamelKeys | lib/awrence/core_extensions/hash/to_camel_keys.rb:3-6 | The receiver's walk under the merged options: a Hash no larger than the receiver, failing exactly on an empty key in camelBack |
| CamelKeysFacts.ArrayWalkedElementwise | lib/awrence/core_extensions/hash/to_camel_keys.rb:12 | An Array becomes the Array of the walks of its elements, same length, same order |
| CamelKeysFacts.ArrayOfWalked | lib/awrence/core_extensions/hash/to_camel_keys.rb:12 | Conversely, elements whose walks succeed give the Array of those walks |
| CamelKeysFacts.HashFromRenamedPairs | lib/awrence/core_extensions/hash/to_camel_keys.rb:14 | A Hash becomes `Hash[...]` of its renamed pairs |
| CamelKeysFacts.LaterDuplicateWins | lib/awrence/core_extensions/hash/to_camel_keys.rb:14 | When two keys camelize alike, the new key reads the walked value of the later entry |
| CamelKeysFacts.FirstPositionKept | lib/awrence/core_extensions/hash/to_camel_keys.rb:14 | Renamed keys come out in the order of their first occurrence |
| CamelKeysFacts.DistinctRenamedKeysKeepEntries | lib/awrence/core_extensions/hash/to_camel_keys.rb:14 | Without collisions every entry is kept, in order, with renamed key and walked value |
| CamelKeysFacts.HashOfWalked | lib/awrence/core_extensions/hash/to_camel_keys.rb:14 | Conversely, entries that rename to distinct keys give the Hash of those renamed entries |
| CamelKeysFacts.KeyKindKept | lib/awrence/core_extensions/hash/to_camel_keys.rb:20-28 | A String key becomes the String of its camelized text, a Symbol the Symbol of its camelized name; any other key is unchanged |
| CamelKeysFacts.KeyRoundTrip | lib/awrence/core_extensions/hash/to_camel_keys.rb:20-28 | A snake_case key is renamed without error, and `DecamelizeKey` gives it back |
| CamelKeysFacts.KeyInjective | lib/awrence/core_extensions/hash/to_camel_keys.rb:20-28 | Distinct snake_case keys are never renamed to the same key |
| CamelKeysFacts.RoundTrip | lib/awrence/core_extensions/hash/to_camel_keys.rb:9-18 | On snake_case data the walk never fails, and `DecamelizeKeys` undoes it: values, positions and key kinds are kept |
| CamelKeysFacts.InertKeyUnchanged | lib/awrence/core_extensions/hash/to_camel_keys.rb:20-28 | In camelBack a key with no `_`, `/` or newline is unchanged |
| CamelKeysFacts.InertKeyedUnchanged | test/awrence/hash/to_camel_keys_test.rb:159-175 | In camelBack, data whose keys have no `_`, `/` or newline comes back exactly as it was |
| CamelKeysFacts.OnlyOptionIgnored | lib/awrence/core_extensions/hash/to_camel_keys.rb:4 | Adding `only:` to the options changes nothing, whatever its value |
| CamelKeysFacts.OneEntryHash | lib/awrence/core_extensions/hash/to_camel_keys.rb:14 | A one-entry Hash becomes the Hash of its renamed key and walked value |
| CamelKeysFacts.TwoEntryHash | lib/awrence/core_extensions/hash/to_camel_keys.rb:14 | A two-entry Hash whose keys rename to different keys keeps both entries, in order |
| CamelKeysFacts.StrKeyRenamed | lib/awrence/core_extensions/hash/to_camel_keys.rb:23-24 | A String key becomes the String of its camelized text |
| CamelKeysFacts.SingleOption | lib/awrence/core_extensions/hash/to_camel_keys.rb:4 | A single option sets the flag it names when its value is truthy, and no other flag |
| CamelKeysFacts.DefaultsOnly | lib/awrence/core_extensions/hash/to_camel_keys.rb:4 | No options, or only `only:`, leave both flags off; `first_upper: true` or `ignore_slash: true` sets just that flag |
| CamelKeysFacts.FirstKeyHash | test/awrence/hash/to_camel_keys_test.rb:10-62 | `{"first_key" => "fooBar"}` gives `{"firstKey" => "fooBar"}`, and `{"FirstKey" => "fooBar"}` with `first_upper` |
| CamelKeysFacts.SlashKeyIgnoredHash | test/awrence/hash/to_camel_keys_test.rb:145-153 | `{"my_first/key" => "fooBar"}` with `ignore_slash` gives the key `myFirst/key` |
| CamelKeysFacts.SpacesKeyHash | test/awrence/hash/to_camel_keys_test.rb:159-175 | `{"With Spaces" => "FooBar"}` comes back unchanged |
| CamelKeysFacts.OnlyKeysAllRenamed | test/awrence/hash/to_camel_keys_test.rb:34-40 | With `only: ["first_key"]` both keys are still renamed (`firstKey`, `secondKey`), as the code does |
| CamelKeysFacts.EmptyKeyHash | lib/awrence/core_extensions/hash/to_camel_keys.rb:32 | An empty String key fails in camelBack and is kept with `first_upper` |
| NestedExample.SpousesWalked | test/awrence/hash/to_camel_keys_test.rb:73-75 | The third level: both peanut hashes get renamed keys and keep their values |
| NestedExample.VegetablesWalked | test/awrence/hash/to_camel_keys_test.rb:70-76 | The second level: every Hash in the Array is renamed, the nested Array walked |
| NestedExample.ProduceWalked | test/awrence/hash/to_camel_keys_test.rb:66-143 | The whole three-level structure: every key renamed at every level, every string value kept |
| NestedExample.ProduceToCamelKeys | test/awrence/hash/to_camel_keys_test.rb:79-143 | Through `to_camel_keys`: camelBack by default, PascalCase with `first_upper: true` |
| NestedExample.ProducePascalCase | test/awrence/hash/to_camel_keys_test.rb:84-109 | In PascalCase the keys read `AppleType`, `VegetableTypes`, `PotatoType`, `BillThePeanut`, `SammyThePeanut`, with their values kept |

## Left out

- The code is not total: `snake_word.chars.first + word[1..-1]` raises on an empty key in camelBack, where both operands are nil. The model follows the code and returns `Err(NoMethodError)` (see `CamelKeys.CamelizeKeys`, `CamelKeysFacts.EmptyKeyHash`).
- `only:` filtering: the test at test/awrence/hash/to_camel_keys_test.rb:34-40 expects `only: ["first_key"]` to rename just that key. The code merges the option and never reads it, so the model follows the code. `OnlyOptionIgnored` and `OnlyKeysAllRenamed` state what the code does.
- `refine Hash` and `using`: `to_camel_keys` is a function taking the receiver's entries. The private helpers are plain functions.
- Unicode case mapping: `Upcase` is ASCII only. Ruby's `String#upcase` also maps other letters and can lengthen a string (`ß` → `SS`).
- Object identity and mutation: values are immutable in the model, so "the original hash is left untouched" holds by construction and is not stated as a lemma.
- Hash and Array subclasses: the walk dispatches on the `Arr` and `Hsh` constructors. A subclass behaving differently under `===` is not modelled.
- Cyclic structures: Dafny values are finite trees, so the endless recursion on a cyclic input cannot arise.
- Keys other than Strings and Symbols are an opaque `Atom`. Values other than text, Arrays and Hashes are opaque too. Nothing is done to them, so their contents do not matter.
- Options given with String keys (`"first_upper" => true`): they are merged as separate keys, and `options[:first_upper]` does not see them. The model gets this from key equality.
- Invalid byte sequences: `gsub` at lines 31 and 33 raises ArgumentError on a String key whose bytes are not valid in its encoding. Model strings are sequences of characters and cannot hold such a key, so this error path is not modelled.
- Stack depth: a deep but acyclic nesting overflows Ruby's stack (SystemStackError) in the recursion of lines 9-18. The model's walk is total on every finite value and does not model this error.
- The minitest runner is not modelled. Its assertions appear as the concrete lemmas cited above.
- KeyCamelizer.CamelizeUnderscores: its own contract gives only length bounds. What the pass computes is stated by `FirstCharThenRest`, `UnderscorePrefix`, `CamelizeWords` and `SnakeRoundTrip`.
- KeyCamelizer.NamespaceSlashes: its own contract gives only the length and first-character bounds. `SlashesAsNamespaces` states what the pass computes.
