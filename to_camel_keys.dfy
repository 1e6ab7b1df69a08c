/**
 * `Hash#to_camel_keys(options = {})`: merges the options over their
 * defaults, then rebuilds the whole structure with every String and Symbol
 * Hash key camelized. Values are never changed, and the input, an immutable
 * value here, is left as it was.
 */
module CamelKeys {
  import opened RubyHash
  import opened RubyValues
  import opened KeyCamelizer

  const FirstUpperOption: Key := SymKey("first_upper")
  const IgnoreSlashOption: Key := SymKey("ignore_slash")

  /** `{ first_upper: false, ignore_slash: false }` */
  const DefaultOptions: seq<(Key, Value)> :=
    [(FirstUpperOption, Scalar(Bool(false))), (IgnoreSlashOption, Scalar(Bool(false)))]

  /**
   * `{ first_upper: false, ignore_slash: false }.merge(options)`, as read by
   * `options[:first_upper]` and `options[:ignore_slash]`: each option is off
   * unless the caller gave it a truthy value. Any other key (`only:` among
   * them) is merged in and never read.
   */
  function MergeOptions(options: seq<(Key, Value)>): (o: Options)
    requires UniqueKeys(options)
    ensures o.firstUpper == (FirstUpperOption in KeysOf(options) && Truthy(Lookup(options, FirstUpperOption)))
    ensures o.ignoreSlash == (IgnoreSlashOption in KeysOf(options) && Truthy(Lookup(options, IgnoreSlashOption)))
  {
    var opts := Merge(DefaultOptions, options);
    MergeLookup(DefaultOptions, options, FirstUpperOption);
    MergeLookup(DefaultOptions, options, IgnoreSlashOption);
    Options(Truthy(Lookup(opts, FirstUpperOption)), Truthy(Lookup(opts, IgnoreSlashOption)))
  }

  /** A String or Symbol key with no characters. */
  predicate IsEmptyTextKey(k: Key)
  {
    k == StrKey([]) || k == SymKey([])
  }

  /**
   * `camel_case_key(k, options)`: a Symbol is camelized through its name and
   * stays a Symbol, a String stays a String, any other key is returned as is.
   */
  function CamelCaseKey(k: Key, o: Options): (r: Result<Key>)
    ensures r.Err? <==> !o.firstUpper && IsEmptyTextKey(k)
    ensures k.AtomKey? ==> r == Ok(k)
    ensures r.Ok? ==> (r.value.StrKey? <==> k.StrKey?) && (r.value.SymKey? <==> k.SymKey?)
  {
    match k
    case SymKey(name) =>
      (match Camelize(name, o) case Ok(c) => Ok(SymKey(c)) case Err(e) => Err(e))
    case StrKey(s) =>
      (match Camelize(s, o) case Ok(c) => Ok(StrKey(c)) case Err(e) => Err(e))
    case AtomKey(_) => Ok(k)
  }

  /** The pair `[camel_case_key(k), camelize_keys(v)]`, key first. */
  function EntryPair(k: Result<Key>, v: Result<Value>): (r: Result<(Key, Value)>)
    ensures r.Ok? <==> k.Ok? && v.Ok?
    ensures r.Ok? ==> r == Ok((k.value, v.value))
  {
    if k.Err? then Err(k.error)
    else if v.Err? then Err(v.error)
    else Ok((k.value, v.value))
  }

  /** Some String or Symbol key, at any depth, is empty. */
  ghost predicate HasEmptyTextKey(v: Value)
    decreases v
  {
    match v
    case Arr(items) => exists i :: 0 <= i < |items| && HasEmptyTextKey(items[i])
    case Hsh(es) =>
      exists i :: 0 <= i < |es| && (IsEmptyTextKey(es[i].0) || HasEmptyTextKey(es[i].1))
    case _ => false
  }

  /**
   * `camelize_keys(value, options)`: an Array is walked element by element,
   * a Hash is rebuilt with `Hash[...]` from the renamed pairs, anything else
   * is returned unchanged. The walk fails exactly when camelBack meets an
   * empty key.
   */
  function CamelizeKeys(v: Value, o: Options): (r: Result<Value>)
    ensures r.Ok? <==> o.firstUpper || !HasEmptyTextKey(v)
    ensures !v.Arr? && !v.Hsh? ==> r == Ok(v)
    ensures r.Ok? && v.Arr? ==> r.value.Arr? && |r.value.items| == |v.items|
    ensures r.Ok? && v.Hsh? ==> r.value.Hsh? && |r.value.entries| <= |v.entries| && UniqueKeys(r.value.entries)
    decreases v, 1
  {
    match v
    case Arr(items) =>
      var walked := CamelizeItems(items, o);
      if walked.Ok? then Ok(Arr(walked.value)) else Err(walked.error)
    case Hsh(entries) =>
      var pairs := CamelizePairs(entries, o);
      if pairs.Ok? then Ok(Hsh(FromPairs(pairs.value))) else Err(pairs.error)
    case _ => Ok(v)
  }

  /** `value.map { |v| camelize_keys(v, options) }` for an Array. */
  function CamelizeItems(items: seq<Value>, o: Options): (r: Result<seq<Value>>)
    ensures r.Ok? <==> forall i :: 0 <= i < |items| ==> CamelizeKeys(items[i], o).Ok?
    ensures r.Ok? ==> |r.value| == |items| && forall i :: 0 <= i < |items| ==> CamelizeKeys(items[i], o) == Ok(r.value[i])
    decreases Arr(items), 0
  {
    var rs := seq(|items|, i requires 0 <= i < |items| => CamelizeKeys(items[i], o));
    assert forall i :: 0 <= i < |items| ==> rs[i] == CamelizeKeys(items[i], o);
    Collect(rs)
  }

  /** `value.map { |k, v| [camel_case_key(k), camelize_keys(v)] }` for a Hash. */
  function CamelizePairs(es: seq<(Key, Value)>, o: Options): (r: Result<seq<(Key, Value)>>)
    ensures r.Ok? <==> forall i :: 0 <= i < |es| ==> CamelCaseKey(es[i].0, o).Ok? && CamelizeKeys(es[i].1, o).Ok?
    ensures r.Ok? ==> |r.value| == |es|
    ensures r.Ok? ==> forall i :: 0 <= i < |es| ==>
              CamelCaseKey(es[i].0, o) == Ok(r.value[i].0) && CamelizeKeys(es[i].1, o) == Ok(r.value[i].1)
    decreases Hsh(es), 0
  {
    var rs := seq(|es|, i requires 0 <= i < |es| => EntryPair(CamelCaseKey(es[i].0, o), CamelizeKeys(es[i].1, o)));
    assert forall i :: 0 <= i < |es| ==> rs[i] == EntryPair(CamelCaseKey(es[i].0, o), CamelizeKeys(es[i].1, o));
    Collect(rs)
  }

  /** `hash.to_camel_keys(options)`: the receiver is a Hash, and so is the result. */
  function ToCamelKeys(hash: seq<(Key, Value)>, options: seq<(Key, Value)>): (r: Result<Value>)
    requires UniqueKeys(options)
    ensures r.Ok? <==> MergeOptions(options).firstUpper || !HasEmptyTextKey(Hsh(hash))
    ensures r.Ok? ==> r.value.Hsh? && |r.value.entries| <= |hash|
  {
    CamelizeKeys(Hsh(hash), MergeOptions(options))
  }
}
