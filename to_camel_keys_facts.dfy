/**
 * What the walk promises: Arrays are mapped element by element, a Hash is
 * rebuilt with the later of two colliding values kept at the earlier
 * position, key kinds are kept, snake_case data round-trips through a
 * snake_case inverse, already camelBack data is returned as it is, and the
 * `only:` option is ignored.
 */
module CamelKeysFacts {
  import opened RubyHash
  import opened RubyValues
  import opened KeyCamelizer
  import opened CamelizeFacts
  import opened CamelKeys

  // ---------------------------------------------------------------------
  // Arrays and Hashes

  /** An Array becomes the Array of the walks of its elements, in order. */
  lemma {:induction false} ArrayWalkedElementwise(items: seq<Value>, o: Options)
    requires CamelizeKeys(Arr(items), o).Ok?
    ensures var out := CamelizeKeys(Arr(items), o).value.items;
            |out| == |items| && forall i :: 0 <= i < |items| ==> CamelizeKeys(items[i], o) == Ok(out[i])
  {
    var rs := seq(|items|, i requires 0 <= i < |items| => CamelizeKeys(items[i], o));
    assert CamelizeKeys(Arr(items), o).value.items == Collect(rs).value;
  }

  /** A Hash is `Hash[...]` of its renamed pairs, which exist once the walk succeeds. */
  lemma HashFromRenamedPairs(es: seq<(Key, Value)>, o: Options)
    requires CamelizeKeys(Hsh(es), o).Ok?
    ensures CamelizePairs(es, o).Ok?
    ensures CamelizeKeys(Hsh(es), o).value.entries == FromPairs(CamelizePairs(es, o).value)
  {
  }

  /**
   * When two keys camelize to the same key, `Hash[...]` keeps the value of
   * the later one: the value of every entry whose renamed key occurs no
   * later in the Hash is what the new key reads.
   */
  lemma LaterDuplicateWins(es: seq<(Key, Value)>, o: Options, i: nat)
    requires CamelizeKeys(Hsh(es), o).Ok?
    requires i < |es|
    requires forall j :: i < j < |es| ==> CamelCaseKey(es[j].0, o) != CamelCaseKey(es[i].0, o)
    ensures CamelCaseKey(es[i].0, o).Ok? && CamelizeKeys(es[i].1, o).Ok?
    ensures Lookup(CamelizeKeys(Hsh(es), o).value.entries, CamelCaseKey(es[i].0, o).value) ==
              Some(CamelizeKeys(es[i].1, o).value)
  {
    HashFromRenamedPairs(es, o);
    var ps := CamelizePairs(es, o).value;
    assert LastWithKey(ps, i);
    FromPairsLastWins(ps, i);
  }

  /**
   * Each renamed key sits at the position of the first entry that produced
   * it: keys come out in the order of their first occurrence.
   */
  lemma FirstPositionKept(es: seq<(Key, Value)>, o: Options)
    requires CamelizeKeys(Hsh(es), o).Ok?
    ensures CamelizePairs(es, o).Ok?
    ensures var out := CamelizeKeys(Hsh(es), o).value.entries;
            var renamed := KeysOf(CamelizePairs(es, o).value);
            forall i, j :: 0 <= i < j < |out| ==> FirstIndex(renamed, out[i].0) < FirstIndex(renamed, out[j].0)
  {
    HashFromRenamedPairs(es, o);
    FromPairsOrder(CamelizePairs(es, o).value);
  }

  /**
   * When no two keys collide after renaming, the Hash keeps every entry, in
   * order, each with its renamed key and walked value.
   */
  lemma DistinctRenamedKeysKeepEntries(es: seq<(Key, Value)>, o: Options)
    requires CamelizeKeys(Hsh(es), o).Ok?
    requires forall i, j :: 0 <= i < j < |es| ==> CamelCaseKey(es[i].0, o) != CamelCaseKey(es[j].0, o)
    ensures var out := CamelizeKeys(Hsh(es), o).value.entries;
            |out| == |es| &&
            forall i :: 0 <= i < |es| ==>
              CamelCaseKey(es[i].0, o) == Ok(out[i].0) && CamelizeKeys(es[i].1, o) == Ok(out[i].1)
  {
    HashFromRenamedPairs(es, o);
    var ps := CamelizePairs(es, o).value;
    FromPairsDistinct(ps);
  }

  /** Conversely, an Array whose elements all walk successfully becomes the Array of their walks. */
  lemma {:induction false} ArrayOfWalked(items: seq<Value>, outs: seq<Value>, o: Options)
    requires |outs| == |items|
    requires forall i :: 0 <= i < |items| ==> CamelizeKeys(items[i], o) == Ok(outs[i])
    ensures CamelizeKeys(Arr(items), o) == Ok(Arr(outs))
  {
    var rs := seq(|items|, i requires 0 <= i < |items| => CamelizeKeys(items[i], o));
    assert forall i :: 0 <= i < |items| ==> rs[i] == Ok(outs[i]);
    var walked := Collect(rs).value;
    assert |walked| == |outs| && forall i :: 0 <= i < |outs| ==> walked[i] == outs[i];
    assert walked == outs;
  }

  /**
   * Conversely, a Hash whose keys and values all walk successfully, to keys
   * that stay distinct, becomes the Hash of its renamed entries in order.
   */
  lemma {:induction false} HashOfWalked(es: seq<(Key, Value)>, out: seq<(Key, Value)>, o: Options)
    requires |out| == |es| && UniqueKeys(out)
    requires forall i :: 0 <= i < |es| ==>
               CamelCaseKey(es[i].0, o) == Ok(out[i].0) && CamelizeKeys(es[i].1, o) == Ok(out[i].1)
    ensures CamelizeKeys(Hsh(es), o) == Ok(Hsh(out))
  {
    var ps := CamelizePairs(es, o).value;
    assert |ps| == |out| && forall i :: 0 <= i < |out| ==> ps[i] == out[i];
    assert ps == out;
    FromPairsDistinct(out);
  }

  /** Key kind is kept: a String key stays a String, a Symbol a Symbol, anything else as is. */
  lemma KeyKindKept(k: Key, o: Options)
    requires CamelCaseKey(k, o).Ok?
    ensures k.StrKey? ==> CamelCaseKey(k, o) == Ok(StrKey(Camelize(k.s, o).value))
    ensures k.SymKey? ==> CamelCaseKey(k, o) == Ok(SymKey(Camelize(k.name, o).value))
    ensures k.AtomKey? ==> CamelCaseKey(k, o) == Ok(k)
  {
  }

  // ---------------------------------------------------------------------
  // The snake_case inverse of the walk

  function DecamelizeKey(k: Key): Key
  {
    match k
    case StrKey(s) => StrKey(Decamelize(s))
    case SymKey(n) => SymKey(Decamelize(n))
    case AtomKey(_) => k
  }

  /** Rewrites every String and Symbol key back to snake_case. */
  function DecamelizeKeys(v: Value): Value
    decreases v
  {
    match v
    case Arr(items) => Arr(seq(|items|, i requires 0 <= i < |items| => DecamelizeKeys(items[i])))
    case Hsh(es) =>
      Hsh(seq(|es|, i requires 0 <= i < |es| => (DecamelizeKey(es[i].0), DecamelizeKeys(es[i].1))))
    case _ => v
  }

  ghost predicate IsSnakeKey(k: Key)
  {
    match k
    case StrKey(s) => IsSnakeWord(s)
    case SymKey(n) => IsSnakeWord(n)
    case AtomKey(_) => true
  }

  /** Every Hash, at any depth, has distinct keys, and its text keys are snake_case. */
  ghost predicate SnakeKeyed(v: Value)
    decreases v
  {
    match v
    case Arr(items) => forall i :: 0 <= i < |items| ==> SnakeKeyed(items[i])
    case Hsh(es) =>
      && UniqueKeys(es)
      && forall i :: 0 <= i < |es| ==> IsSnakeKey(es[i].0) && SnakeKeyed(es[i].1)
    case _ => true
  }

  lemma KeyRoundTrip(k: Key, o: Options)
    requires IsSnakeKey(k)
    ensures CamelCaseKey(k, o).Ok? && DecamelizeKey(CamelCaseKey(k, o).value) == k
  {
    match k
    case StrKey(s) => SnakeRoundTrip(s, o);
    case SymKey(n) => SnakeRoundTrip(n, o);
    case AtomKey(_) =>
  }

  /** Distinct snake_case keys never collide once camelized. */
  lemma KeyInjective(a: Key, b: Key, o: Options)
    requires IsSnakeKey(a) && IsSnakeKey(b) && a != b
    ensures CamelCaseKey(a, o) != CamelCaseKey(b, o)
  {
    KeyRoundTrip(a, o);
    KeyRoundTrip(b, o);
  }

  /**
   * On snake_case data the walk never fails, drops no entry, and is undone
   * by DecamelizeKeys: values, positions and key kinds are all kept.
   */
  lemma {:induction false} RoundTrip(v: Value, o: Options)
    requires SnakeKeyed(v)
    ensures CamelizeKeys(v, o).Ok?
    ensures DecamelizeKeys(CamelizeKeys(v, o).value) == v
    decreases v
  {
    match v
    case Arr(items) =>
      forall i | 0 <= i < |items|
        ensures CamelizeKeys(items[i], o).Ok? && DecamelizeKeys(CamelizeKeys(items[i], o).value) == items[i]
      {
        RoundTrip(items[i], o);
      }
      ArrayWalkedElementwise(items, o);
      var out := CamelizeKeys(v, o).value.items;
      assert DecamelizeKeys(Arr(out)).items == items;
    case Hsh(es) =>
      forall i | 0 <= i < |es|
        ensures CamelCaseKey(es[i].0, o).Ok? && DecamelizeKey(CamelCaseKey(es[i].0, o).value) == es[i].0
        ensures CamelizeKeys(es[i].1, o).Ok? && DecamelizeKeys(CamelizeKeys(es[i].1, o).value) == es[i].1
      {
        KeyRoundTrip(es[i].0, o);
        RoundTrip(es[i].1, o);
      }
      forall i, j | 0 <= i < j < |es| ensures CamelCaseKey(es[i].0, o) != CamelCaseKey(es[j].0, o) {
        KeyInjective(es[i].0, es[j].0, o);
      }
      assert CamelizePairs(es, o).Ok?;
      DistinctRenamedKeysKeepEntries(es, o);
      var out := CamelizeKeys(v, o).value.entries;
      assert DecamelizeKeys(Hsh(out)).entries == es;
    case _ =>
  }

  // ---------------------------------------------------------------------
  // Data that is camelBack already

  /** A key the camelizer leaves alone in camelBack. */
  ghost predicate IsInertKey(k: Key)
  {
    match k
    case StrKey(s) => |s| > 0 && '_' !in s && '/' !in s && '\n' !in s
    case SymKey(n) => |n| > 0 && '_' !in n && '/' !in n && '\n' !in n
    case AtomKey(_) => true
  }

  ghost predicate InertKeyed(v: Value)
    decreases v
  {
    match v
    case Arr(items) => forall i :: 0 <= i < |items| ==> InertKeyed(items[i])
    case Hsh(es) =>
      && UniqueKeys(es)
      && forall i :: 0 <= i < |es| ==> IsInertKey(es[i].0) && InertKeyed(es[i].1)
    case _ => true
  }

  lemma InertKeyUnchanged(k: Key, o: Options)
    requires !o.firstUpper && IsInertKey(k)
    ensures CamelCaseKey(k, o) == Ok(k)
  {
    match k
    case StrKey(s) => CamelizeWithoutSeparators(s, o);
    case SymKey(n) => CamelizeWithoutSeparators(n, o);
    case AtomKey(_) =>
  }

  /**
   * In camelBack, data whose keys have no underscore, slash or newline
   * (such as "With Spaces") comes back exactly as it was.
   */
  lemma {:induction false} InertKeyedUnchanged(v: Value, o: Options)
    requires !o.firstUpper && InertKeyed(v)
    ensures CamelizeKeys(v, o) == Ok(v)
    decreases v
  {
    match v
    case Arr(items) =>
      forall i | 0 <= i < |items| ensures CamelizeKeys(items[i], o) == Ok(items[i]) {
        InertKeyedUnchanged(items[i], o);
      }
      ArrayWalkedElementwise(items, o);
      assert CamelizeKeys(v, o).value.items == items;
    case Hsh(es) =>
      forall i | 0 <= i < |es|
        ensures CamelCaseKey(es[i].0, o) == Ok(es[i].0) && CamelizeKeys(es[i].1, o) == Ok(es[i].1)
      {
        InertKeyUnchanged(es[i].0, o);
        InertKeyedUnchanged(es[i].1, o);
      }
      assert CamelizePairs(es, o).Ok?;
      DistinctRenamedKeysKeepEntries(es, o);
      assert CamelizeKeys(v, o).value.entries == es;
    case _ =>
  }

  // ---------------------------------------------------------------------
  // Options

  /** With no options both are off; `only:` changes nothing, whatever it holds. */
  lemma OnlyOptionIgnored(hash: seq<(Key, Value)>, options: seq<(Key, Value)>, only: Value)
    requires UniqueKeys(options) && SymKey("only") !in KeysOf(options)
    ensures UniqueKeys(options + [(SymKey("only"), only)])
    ensures ToCamelKeys(hash, options + [(SymKey("only"), only)]) == ToCamelKeys(hash, options)
  {
    var more := Store(options, SymKey("only"), only);
    assert more == options + [(SymKey("only"), only)];
    StoreKeys(options, SymKey("only"), only);
    StoreLookup(options, SymKey("only"), only, FirstUpperOption);
    StoreLookup(options, SymKey("only"), only, IgnoreSlashOption);
    assert MergeOptions(more) == MergeOptions(options);
  }

  // ---------------------------------------------------------------------
  // Cases from the test suite

  /** A one-entry Hash: the key is renamed and the value walked. */
  lemma OneEntryHash(k: Key, v: Value, o: Options, k': Key, v': Value)
    requires CamelCaseKey(k, o) == Ok(k') && CamelizeKeys(v, o) == Ok(v')
    ensures CamelizeKeys(Hsh([(k, v)]), o) == Ok(Hsh([(k', v')]))
  {
    HashOfWalked([(k, v)], [(k', v')], o);
  }

  /** A two-entry Hash whose renamed keys differ: both entries are kept, in order. */
  lemma TwoEntryHash(k1: Key, v1: Value, k2: Key, v2: Value, o: Options,
                     k1': Key, v1': Value, k2': Key, v2': Value)
    requires CamelCaseKey(k1, o) == Ok(k1') && CamelizeKeys(v1, o) == Ok(v1')
    requires CamelCaseKey(k2, o) == Ok(k2') && CamelizeKeys(v2, o) == Ok(v2')
    requires k1' != k2'
    ensures CamelizeKeys(Hsh([(k1, v1), (k2, v2)]), o) == Ok(Hsh([(k1', v1'), (k2', v2')]))
  {
    var es, out := [(k1, v1), (k2, v2)], [(k1', v1'), (k2', v2')];
    assert UniqueKeys(out) by {
      assert out[0].0 == k1' && out[1].0 == k2';
    }
    assert forall i :: 0 <= i < |es| ==>
             CamelCaseKey(es[i].0, o) == Ok(out[i].0) && CamelizeKeys(es[i].1, o) == Ok(out[i].1) by {
      assert es[0] == (k1, v1) && es[1] == (k2, v2);
    }
    HashOfWalked(es, out, o);
  }

  /** Two-element and three-element Arrays: each element is walked in place. */
  lemma TwoItemArray(x: Value, y: Value, o: Options, x': Value, y': Value)
    requires CamelizeKeys(x, o) == Ok(x') && CamelizeKeys(y, o) == Ok(y')
    ensures CamelizeKeys(Arr([x, y]), o) == Ok(Arr([x', y']))
  {
    ArrayOfWalked([x, y], [x', y'], o);
  }

  lemma ThreeItemArray(x: Value, y: Value, z: Value, o: Options, x': Value, y': Value, z': Value)
    requires CamelizeKeys(x, o) == Ok(x') && CamelizeKeys(y, o) == Ok(y') && CamelizeKeys(z, o) == Ok(z')
    ensures CamelizeKeys(Arr([x, y, z]), o) == Ok(Arr([x', y', z']))
  {
    ArrayOfWalked([x, y, z], [x', y', z'], o);
  }

  /** A String key is renamed to the String of its camelized text. */
  lemma StrKeyRenamed(s: string, o: Options, c: string)
    requires Camelize(s, o) == Ok(c)
    ensures CamelCaseKey(StrKey(s), o) == Ok(StrKey(c))
  {
  }

  /** A single option entry sets the flag it names when its value is truthy, and no other flag. */
  lemma {:induction false} SingleOption(k: Key, v: Value)
    ensures UniqueKeys([(k, v)])
    ensures MergeOptions([(k, v)]) ==
              Options(k == FirstUpperOption && Truthy(Some(v)), k == IgnoreSlashOption && Truthy(Some(v)))
  {
    assert KeysOf([(k, v)]) == [k];
  }

  lemma {:induction false} DefaultsOnly(only: Value)
    ensures MergeOptions([]) == Options(false, false)
    ensures MergeOptions([(SymKey("only"), only)]) == Options(false, false)
    ensures MergeOptions([(FirstUpperOption, Scalar(Bool(true)))]) == Options(true, false)
    ensures MergeOptions([(IgnoreSlashOption, Scalar(Bool(true)))]) == Options(false, true)
  {
    assert KeysOf<Key, Value>([]) == [];
    SingleOption(SymKey("only"), only);
    assert |"only"| != |"first_upper"| && |"only"| != |"ignore_slash"|;
    SingleOption(FirstUpperOption, Scalar(Bool(true)));
    SingleOption(IgnoreSlashOption, Scalar(Bool(true)));
    assert |"first_upper"| != |"ignore_slash"|;
  }

  /** `{ "first_key" => "fooBar" }`, camelBack by default and PascalCase with `first_upper: true`. */
  lemma FirstKeyHash()
    ensures ToCamelKeys([(StrKey("first_key"), Str("fooBar"))], []) ==
              Ok(Hsh([(StrKey("firstKey"), Str("fooBar"))]))
    ensures ToCamelKeys([(StrKey("first_key"), Str("fooBar"))], [(FirstUpperOption, Scalar(Bool(true)))]) ==
              Ok(Hsh([(StrKey("FirstKey"), Str("fooBar"))]))
  {
    DefaultsOnly(Scalar(Nil));
    CamelizeFirstKey();
    OneEntryHash(StrKey("first_key"), Str("fooBar"), Options(false, false), StrKey("firstKey"), Str("fooBar"));
    OneEntryHash(StrKey("first_key"), Str("fooBar"), Options(true, false), StrKey("FirstKey"), Str("fooBar"));
  }

  /** `{ "my_first/key" => "fooBar" }` with `ignore_slash: true` gives `myFirst/key`. */
  lemma SlashKeyIgnoredHash()
    ensures ToCamelKeys([(StrKey("my_first/key"), Str("fooBar"))], [(IgnoreSlashOption, Scalar(Bool(true)))]) ==
              Ok(Hsh([(StrKey("myFirst/key"), Str("fooBar"))]))
  {
    DefaultsOnly(Scalar(Nil));
    CamelizeSlashKeyIgnored();
    OneEntryHash(StrKey("my_first/key"), Str("fooBar"), Options(false, true), StrKey("myFirst/key"), Str("fooBar"));
  }

  /** `{ "With Spaces" => "FooBar" }` comes back unchanged. */
  lemma SpacesKeyHash()
    ensures ToCamelKeys([(StrKey("With Spaces"), Str("FooBar"))], []) ==
              Ok(Hsh([(StrKey("With Spaces"), Str("FooBar"))]))
  {
    DefaultsOnly(Scalar(Nil));
    CamelizeSpacesKey(Options(false, false));
    OneEntryHash(StrKey("With Spaces"), Str("FooBar"), Options(false, false), StrKey("With Spaces"), Str("FooBar"));
  }

  /**
   * `only: ["first_key"]` is merged into the options and never read, so
   * `second_key` is renamed as well: the result is
   * `{ "firstKey" => "fooBar", "secondKey" => "barFoo" }`.
   */
  lemma OnlyKeysAllRenamed()
    ensures ToCamelKeys([(StrKey("first_key"), Str("fooBar")), (StrKey("second_key"), Str("barFoo"))],
                        [(SymKey("only"), Arr([Str("first_key")]))]) ==
              Ok(Hsh([(StrKey("firstKey"), Str("fooBar")), (StrKey("secondKey"), Str("barFoo"))]))
  {
    DefaultsOnly(Arr([Str("first_key")]));
    CamelizeFirstKey();
    CamelizeSecondKey();
    var o := Options(false, false);
    StrKeyRenamed("first_key", o, "firstKey");
    StrKeyRenamed("second_key", o, "secondKey");
    assert "firstKey"[0] != "secondKey"[0];
    TwoEntryHash(StrKey("first_key"), Str("fooBar"), StrKey("second_key"), Str("barFoo"), o,
                 StrKey("firstKey"), Str("fooBar"), StrKey("secondKey"), Str("barFoo"));
  }

  /** An empty String key raises in camelBack, but not with `first_upper`. */
  lemma EmptyKeyHash()
    ensures ToCamelKeys([(StrKey(""), Str("x"))], []).Err?
    ensures ToCamelKeys([(StrKey(""), Str("x"))], [(FirstUpperOption, Scalar(Bool(true)))]) ==
              Ok(Hsh([(StrKey(""), Str("x"))]))
  {
    DefaultsOnly(Scalar(Nil));
    var es := [(StrKey(""), Str("x"))];
    assert IsEmptyTextKey(es[0].0);
    assert HasEmptyTextKey(Hsh(es));
    assert Camelize("", Options(true, false)) == Ok("");
    OneEntryHash(StrKey(""), Str("x"), Options(true, false), StrKey(""), Str("x"));
  }
}
