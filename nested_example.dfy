/**
 * The nested case of the test suite: a Hash holding an Array of Hashes,
 * one of which holds another Array of Hashes. Every key on every level is
 * renamed and every value that is not a container is left alone, both in
 * camelBack and in PascalCase (`first_upper: true`).
 */
module NestedExample {
  import opened RubyHash
  import opened RubyValues
  import opened KeyCamelizer
  import opened CamelizeFacts
  import opened CamelKeys
  import opened CamelKeysFacts

  // ---------------------------------------------------------------------
  // The keys, one lemma each

  lemma {:induction false} AppleTypeKey(o: Options)
    ensures CamelCaseKey(StrKey("apple_type"), o) == Ok(StrKey(Lead("apple", o) + "Type"))
  {
    TwoWords("apple", "type", o);
    assert "apple" + "_" + "type" == "apple_type";
    assert Capitalize("type") == "Type";
    StrKeyRenamed("apple_type", o, Lead("apple", o) + "Type");
  }

  lemma {:induction false} VegetableTypesKey(o: Options)
    ensures CamelCaseKey(StrKey("vegetable_types"), o) == Ok(StrKey(Lead("vegetable", o) + "Types"))
  {
    TwoWords("vegetable", "types", o);
    assert "vegetable" + "_" + "types" == "vegetable_types";
    assert Capitalize("types") == "Types";
    StrKeyRenamed("vegetable_types", o, Lead("vegetable", o) + "Types");
  }

  lemma {:induction false} PotatoTypeKey(o: Options)
    ensures CamelCaseKey(StrKey("potato_type"), o) == Ok(StrKey(Lead("potato", o) + "Type"))
  {
    TwoWords("potato", "type", o);
    assert "potato" + "_" + "type" == "potato_type";
    assert Capitalize("type") == "Type";
    StrKeyRenamed("potato_type", o, Lead("potato", o) + "Type");
  }

  lemma {:induction false} OtherTuberTypeKey(o: Options)
    ensures CamelCaseKey(StrKey("other_tuber_type"), o) == Ok(StrKey(Lead("other", o) + "TuberType"))
  {
    ThreeWords("other", "tuber", "type", o);
    assert "other" + "_" + "tuber" == "other_tuber";
    assert "other_tuber" + "_" + "type" == "other_tuber_type";
    assert Capitalize("tuber") == "Tuber";
    assert Capitalize("type") == "Type";
    assert "Tuber" + "Type" == "TuberType";
    StrKeyRenamed("other_tuber_type", o, Lead("other", o) + "TuberType");
  }

  lemma {:induction false} PeanutNamesAndSpousesJoined()
    ensures "peanut" + "_" + "names" + "_" + "and" + "_" + "spouses" == "peanut_names_and_spouses"
  {
    assert "peanut" + "_" + "names" == "peanut_names";
    assert "peanut_names" + "_" + "and" == "peanut_names_and";
  }

  lemma {:induction false} NamesAndSpousesCapitalized()
    ensures Capitalize("names") + Capitalize("and") + Capitalize("spouses") == "NamesAndSpouses"
  {
    assert Capitalize("names") == "Names";
    assert Capitalize("and") == "And";
    assert Capitalize("spouses") == "Spouses";
    assert "Names" + "And" == "NamesAnd";
    assert "NamesAnd" + "Spouses" == "NamesAndSpouses";
  }

  lemma {:induction false} PeanutNamesAndSpousesText(o: Options)
    ensures Camelize("peanut_names_and_spouses", o) == Ok(Lead("peanut", o) + "NamesAndSpouses")
  {
    FourWords("peanut", "names", "and", "spouses", o);
    PeanutNamesAndSpousesJoined();
    NamesAndSpousesCapitalized();
  }

  lemma {:induction false} PeanutNamesAndSpousesKey(o: Options)
    ensures CamelCaseKey(StrKey("peanut_names_and_spouses"), o) ==
              Ok(StrKey(Lead("peanut", o) + "NamesAndSpouses"))
  {
    PeanutNamesAndSpousesText(o);
    StrKeyRenamed("peanut_names_and_spouses", o, Lead("peanut", o) + "NamesAndSpouses");
  }

  lemma {:induction false} BillThePeanutKey(o: Options)
    ensures CamelCaseKey(StrKey("bill_the_peanut"), o) == Ok(StrKey(Lead("bill", o) + "ThePeanut"))
  {
    ThreeWords("bill", "the", "peanut", o);
    assert "bill" + "_" + "the" == "bill_the";
    assert "bill_the" + "_" + "peanut" == "bill_the_peanut";
    assert Capitalize("the") == "The";
    assert Capitalize("peanut") == "Peanut";
    assert "The" + "Peanut" == "ThePeanut";
    StrKeyRenamed("bill_the_peanut", o, Lead("bill", o) + "ThePeanut");
  }

  lemma {:induction false} SammyThePeanutKey(o: Options)
    ensures CamelCaseKey(StrKey("sammy_the_peanut"), o) == Ok(StrKey(Lead("sammy", o) + "ThePeanut"))
  {
    ThreeWords("sammy", "the", "peanut", o);
    assert "sammy" + "_" + "the" == "sammy_the";
    assert "sammy_the" + "_" + "peanut" == "sammy_the_peanut";
    assert Capitalize("the") == "The";
    assert Capitalize("peanut") == "Peanut";
    assert "The" + "Peanut" == "ThePeanut";
    StrKeyRenamed("sammy_the_peanut", o, Lead("sammy", o) + "ThePeanut");
  }

  // ---------------------------------------------------------------------
  // The data, before and after

  function Spouses(): Value
  {
    Arr([Hsh([(StrKey("bill_the_peanut"), Str("sally_peanut"))]),
         Hsh([(StrKey("sammy_the_peanut"), Str("jill_peanut"))])])
  }

  function WalkedSpouses(o: Options): Value
  {
    Arr([Hsh([(StrKey(Lead("bill", o) + "ThePeanut"), Str("sally_peanut"))]),
         Hsh([(StrKey(Lead("sammy", o) + "ThePeanut"), Str("jill_peanut"))])])
  }

  function Vegetables(): Value
  {
    Arr([Hsh([(StrKey("potato_type"), Str("Golden delicious"))]),
         Hsh([(StrKey("other_tuber_type"), Str("peanut"))]),
         Hsh([(StrKey("peanut_names_and_spouses"), Spouses())])])
  }

  function WalkedVegetables(o: Options): Value
  {
    Arr([Hsh([(StrKey(Lead("potato", o) + "Type"), Str("Golden delicious"))]),
         Hsh([(StrKey(Lead("other", o) + "TuberType"), Str("peanut"))]),
         Hsh([(StrKey(Lead("peanut", o) + "NamesAndSpouses"), WalkedSpouses(o))])])
  }

  function Produce(): seq<(Key, Value)>
  {
    [(StrKey("apple_type"), Str("Granny Smith")), (StrKey("vegetable_types"), Vegetables())]
  }

  function WalkedProduce(o: Options): seq<(Key, Value)>
  {
    [(StrKey(Lead("apple", o) + "Type"), Str("Granny Smith")),
     (StrKey(Lead("vegetable", o) + "Types"), WalkedVegetables(o))]
  }

  // ---------------------------------------------------------------------
  // The walk, level by level

  lemma SpousesWalked(o: Options)
    ensures CamelizeKeys(Spouses(), o) == Ok(WalkedSpouses(o))
  {
    BillThePeanutKey(o);
    SammyThePeanutKey(o);
    var bill, sammy := Str("sally_peanut"), Str("jill_peanut");
    OneEntryHash(StrKey("bill_the_peanut"), bill, o, StrKey(Lead("bill", o) + "ThePeanut"), bill);
    OneEntryHash(StrKey("sammy_the_peanut"), sammy, o, StrKey(Lead("sammy", o) + "ThePeanut"), sammy);
    TwoItemArray(Spouses().items[0], Spouses().items[1], o, WalkedSpouses(o).items[0], WalkedSpouses(o).items[1]);
  }

  lemma VegetablesWalked(o: Options)
    ensures CamelizeKeys(Vegetables(), o) == Ok(WalkedVegetables(o))
  {
    PotatoTypeKey(o);
    OtherTuberTypeKey(o);
    PeanutNamesAndSpousesKey(o);
    SpousesWalked(o);
    var potato, tuber := Str("Golden delicious"), Str("peanut");
    OneEntryHash(StrKey("potato_type"), potato, o, StrKey(Lead("potato", o) + "Type"), potato);
    OneEntryHash(StrKey("other_tuber_type"), tuber, o, StrKey(Lead("other", o) + "TuberType"), tuber);
    OneEntryHash(StrKey("peanut_names_and_spouses"), Spouses(), o,
                 StrKey(Lead("peanut", o) + "NamesAndSpouses"), WalkedSpouses(o));
    var items, outs := Vegetables().items, WalkedVegetables(o).items;
    ThreeItemArray(items[0], items[1], items[2], o, outs[0], outs[1], outs[2]);
  }

  /**
   * `{ "apple_type" => ..., "vegetable_types" => [...] }` comes back with
   * `appleType`/`AppleType`, `vegetableTypes`/`VegetableTypes` and the same
   * renaming on the second and third levels; the strings stay as they are.
   */
  lemma ProduceWalked(o: Options)
    ensures CamelizeKeys(Hsh(Produce()), o) == Ok(Hsh(WalkedProduce(o)))
  {
    AppleTypeKey(o);
    VegetableTypesKey(o);
    VegetablesWalked(o);
    var apple, vegetables := StrKey(Lead("apple", o) + "Type"), StrKey(Lead("vegetable", o) + "Types");
    assert |apple.s| != |vegetables.s|;
    TwoEntryHash(StrKey("apple_type"), Str("Granny Smith"), StrKey("vegetable_types"), Vegetables(), o,
                 apple, Str("Granny Smith"), vegetables, WalkedVegetables(o));
  }

  /** Through `to_camel_keys`: camelBack by default, PascalCase with `first_upper: true`. */
  lemma ProduceToCamelKeys()
    ensures ToCamelKeys(Produce(), []) == Ok(Hsh(WalkedProduce(Options(false, false))))
    ensures ToCamelKeys(Produce(), [(FirstUpperOption, Scalar(Bool(true)))]) ==
              Ok(Hsh(WalkedProduce(Options(true, false))))
  {
    DefaultsOnly(Scalar(Nil));
    ProduceWalked(Options(false, false));
    ProduceWalked(Options(true, false));
  }

  /** The values the test reads back, in PascalCase. */
  lemma ProducePascalCase()
    ensures WalkedProduce(Options(true, false))[0] == (StrKey("AppleType"), Str("Granny Smith"))
    ensures WalkedProduce(Options(true, false))[1].0 == StrKey("VegetableTypes")
    ensures WalkedVegetables(Options(true, false)).items[0] ==
              Hsh([(StrKey("PotatoType"), Str("Golden delicious"))])
    ensures WalkedSpouses(Options(true, false)) ==
              Arr([Hsh([(StrKey("BillThePeanut"), Str("sally_peanut"))]),
                   Hsh([(StrKey("SammyThePeanut"), Str("jill_peanut"))])])
  {
    var o := Options(true, false);
    assert Lead("apple", o) == "Apple";
    assert Lead("vegetable", o) == "Vegetable";
    assert Lead("potato", o) == "Potato";
    assert Lead("bill", o) == "Bill";
    assert Lead("sammy", o) == "Sammy";
    assert "Apple" + "Type" == "AppleType";
    assert "Vegetable" + "Types" == "VegetableTypes";
    assert "Potato" + "Type" == "PotatoType";
    assert "Bill" + "ThePeanut" == "BillThePeanut";
    assert "Sammy" + "ThePeanut" == "SammyThePeanut";
  }
}
