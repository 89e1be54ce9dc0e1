/**
 Splitting off the Connection field and every field it nominates, as hop-by-hop forwarding needs it
 (section 6.1 of RFC 7230).
 */
module Partition {
  import opened Common
  import opened OptionScanner
  import opened HeaderFields

  // Written in two parts so that the verifier does not evaluate functions on the literal.
  const CONNECTION := "Connect" + "ion"

  const CONNECTION_KEY := Lower(CONNECTION)

  /** The options that a list of Connection values nominates. */
  function OptionsIn(values: seq<string>): seq<string> {
    if values == [] then []
    else
      var v := values[|values| - 1];
      var front := OptionsIn(values[..|values| - 1]);
      if v == "" then front else front + Scan(v)
  }

  function Nominations(es: seq<Field>): seq<string> {
    OptionsIn(Values(es, CONNECTION_KEY))
  }

  function NonEmptyValues(values: seq<string>): seq<string> {
    if values == [] then []
    else
      var v := values[|values| - 1];
      var front := NonEmptyValues(values[..|values| - 1]);
      if v == "" then front else front + [v]
  }

  /** The container after inserting values under one name. */
  function WithValues(out: seq<Field>, name: string, values: seq<string>): seq<Field> {
    if values == [] then out
    else Inserted(WithValues(out, name, values[..|values| - 1]), Field(name, values[|values| - 1]))
  }

  /** The container after inserting, option by option, the fields of that name. */
  function WithOptions(out: seq<Field>, es: seq<Field>, options: seq<string>): seq<Field> {
    if options == [] then out
    else
      var opt := options[|options| - 1];
      WithValues(WithOptions(out, es, options[..|options| - 1]), opt, Values(es, Lower(opt)))
  }

  function PartitionedOut(es: seq<Field>, out: seq<Field>): seq<Field> {
    WithOptions(WithValues(out, CONNECTION, NonEmptyValues(Values(es, CONNECTION_KEY))), es, Nominations(es))
  }

  /** The names that may not travel on: Connection and all that it nominates. */
  function HopByHop(es: seq<Field>): set<string> {
    Keys(Nominations(es)) + {CONNECTION_KEY}
  }

  function Keys(options: seq<string>): set<string> {
    if options == [] then {} else Keys(options[..|options| - 1]) + {Lower(options[|options| - 1])}
  }

  lemma MoveNone(out: seq<Field>, values: seq<string>)
    ensures OptionsIn(values[..0]) == []
    ensures WithValues(out, CONNECTION, NonEmptyValues(values[..0])) == out
  {
    assert values[..0] == [];
  }

  lemma MoveStep(out: seq<Field>, values: seq<string>, i: nat)
    requires i < |values|
    ensures var v, before, after := values[i], values[..i], values[..i + 1];
            && OptionsIn(after) == (if v == "" then OptionsIn(before) else OptionsIn(before) + Scan(v))
            && var moved := WithValues(out, CONNECTION, NonEmptyValues(before));
            WithValues(out, CONNECTION, NonEmptyValues(after))
            == if v == "" then moved else Inserted(moved, Field(CONNECTION, v))
  {
    hide Scan;
    hide Inserted;
    var done := NonEmptyValues(values[..i]);
    assert values[..i + 1][..i] == values[..i];
    assert (done + [values[i]])[..|done|] == done;
  }

  /** The first loop: parses the Connection values and moves them over. */
  method MoveConnections(inFields: Fields, outFields: Fields) returns (options: seq<string>)
    requires inFields != outFields
    modifies outFields
    ensures options == Nominations(inFields.entries)
    ensures outFields.entries
         == WithValues(old(outFields.entries), CONNECTION, NonEmptyValues(Values(inFields.entries, CONNECTION_KEY)))
  {
    hide OptionsIn;
    hide NonEmptyValues;
    hide WithValues;
    hide Inserted;
    hide Values;
    hide Scan;
    options := [];
    var values := inFields.EqualRange(CONNECTION);
    MoveNone(outFields.entries, values);
    for i := 0 to |values|
      invariant options == OptionsIn(values[..i])
      invariant outFields.entries == WithValues(old(outFields.entries), CONNECTION, NonEmptyValues(values[..i]))
    {
      var value := values[i];
      MoveStep(old(outFields.entries), values, i);
      if value == "" {
        continue;
      }
      options := options + Scan(value);
      outFields.Insert(CONNECTION, value);
    }
    assert values[..|values|] == values;
  }

  /** The second loop: copies the fields that the options nominate, option by option. */
  method CopyNominated(inFields: Fields, outFields: Fields, options: seq<string>)
    requires inFields != outFields
    modifies outFields
    ensures outFields.entries == WithOptions(old(outFields.entries), inFields.entries, options)
  {
    hide Values;
    hide Inserted;
    for i := 0 to |options|
      invariant outFields.entries == WithOptions(old(outFields.entries), inFields.entries, options[..i])
    {
      var opt := options[i];
      assert options[..i + 1][..i] == options[..i];
      var values := inFields.EqualRange(opt);
      ghost var before := outFields.entries;
      for j := 0 to |values|
        invariant outFields.entries == WithValues(before, opt, values[..j])
      {
        assert values[..j + 1][..j] == values[..j];
        outFields.Insert(opt, values[j]);
      }
      assert values[..|values|] == values;
    }
    assert options[..|options|] == options;
  }

  /** The third loop, and what follows it: erases the nominated fields and then Connection. */
  method EraseNominated(fields: Fields, options: seq<string>)
    modifies fields
    ensures fields.entries == Filtered(old(fields.entries), Keys(options) + {CONNECTION_KEY})
  {
    FilteredNone(fields.entries);
    hide Filtered;
    for i := 0 to |options|
      invariant fields.entries == Filtered(old(fields.entries), Keys(options[..i]))
    {
      assert options[..i + 1][..i] == options[..i];
      FilteredTwice(old(fields.entries), Keys(options[..i]), {Lower(options[i])});
      fields.Erase(options[i]);
    }
    assert options[..|options|] == options;
    FilteredTwice(old(fields.entries), Keys(options), {CONNECTION_KEY});
    fields.Erase(CONNECTION);
  }

  method PartitionConnectionOptions(inFields: Fields, outFields: Fields)
    requires inFields != outFields
    modifies inFields, outFields
    ensures inFields.entries == Filtered(old(inFields.entries), HopByHop(old(inFields.entries)))
    ensures outFields.entries == PartitionedOut(old(inFields.entries), old(outFields.entries))
  {
    var options := MoveConnections(inFields, outFields);
    CopyNominated(inFields, outFields, options);
    EraseNominated(inFields, options);
  }

  // What the partition means for the values of each name.

  /** How many options nominate a name. */
  function Occurrences(options: seq<string>, key: string): nat {
    if options == [] then 0
    else Occurrences(options[..|options| - 1], key) + if Lower(options[|options| - 1]) == key then 1 else 0
  }

  function Repeat(values: seq<string>, n: nat): seq<string> {
    if n == 0 then [] else Repeat(values, n - 1) + values
  }

  lemma {:induction false} KeysAreOccurring(options: seq<string>, key: string)
    ensures key in Keys(options) <==> Occurrences(options, key) > 0
  {
    if options == [] {
    } else {
      KeysAreOccurring(options[..|options| - 1], key);
    }
  }

  lemma {:induction false} ValuesWithValues(out: seq<Field>, name: string, values: seq<string>, key: string)
    ensures Values(WithValues(out, name, values), key)
         == if Lower(name) == key then Values(out, key) + values else Values(out, key)
  {
    hide Values;
    hide Inserted;
    hide Lower;
    if values == [] {
      assert Values(out, key) + values == Values(out, key);
    } else {
      var front, v := values[..|values| - 1], values[|values| - 1];
      var before := WithValues(out, name, front);
      assert WithValues(out, name, values) == Inserted(before, Field(name, v));
      ValuesWithValues(out, name, front, key);
      hide WithValues;
      ValuesInserted(before, Field(name, v), key);
      LastOne(Values(out, key), values);
    }
  }

  lemma LastOne(a: seq<string>, b: seq<string>)
    requires b != []
    ensures (a + b[..|b| - 1]) + [b[|b| - 1]] == a + b
  {
  }

  lemma {:induction false} ValuesWithOptions(out: seq<Field>, es: seq<Field>, options: seq<string>, key: string)
    ensures Values(WithOptions(out, es, options), key)
         == Values(out, key) + Repeat(Values(es, key), Occurrences(options, key))
  {
    hide Values;
    hide WithValues;
    hide Lower;
    if options == [] {
    } else {
      var front, opt := options[..|options| - 1], options[|options| - 1];
      ValuesWithOptions(out, es, front, key);
      ValuesWithValues(WithOptions(out, es, front), opt, Values(es, Lower(opt)), key);
    }
  }

  /** What the outgoing container gains under each name, in order and with repetitions: for Connection
      its own values that are not empty, and then for any name all its values once per nomination. */
  lemma {:induction false} OutValues(es: seq<Field>, out: seq<Field>, key: string)
    ensures Values(PartitionedOut(es, out), key)
         == Values(out, key)
          + (if key == CONNECTION_KEY then NonEmptyValues(Values(es, key)) else [])
          + Repeat(Values(es, key), Occurrences(Nominations(es), key))
  {
    var moved := WithValues(out, CONNECTION, NonEmptyValues(Values(es, CONNECTION_KEY)));
    ValuesWithValues(out, CONNECTION, NonEmptyValues(Values(es, CONNECTION_KEY)), key);
    ValuesWithOptions(moved, es, Nominations(es), key);
    hide Values;
    hide WithValues;
    hide WithOptions;
    hide Repeat;
  }

  /** What the incoming container keeps under each name: all or nothing. */
  lemma {:induction false} InValues(es: seq<Field>, key: string)
    ensures Values(Filtered(es, HopByHop(es)), key)
         == if key == CONNECTION_KEY || Occurrences(Nominations(es), key) > 0 then [] else Values(es, key)
  {
    ValuesFiltered(es, HopByHop(es), key);
    KeysAreOccurring(Nominations(es), key);
  }

  lemma {:induction false} RepeatSize(values: seq<string>, n: nat)
    requires n > 0
    ensures n == 1 ==> Repeat(values, n) == values
    ensures |Repeat(values, n)| >= |values|
    ensures n > 1 && values != [] ==> |Repeat(values, n)| > |values|
  {
    if n > 1 {
      RepeatSize(values, n - 1);
    } else {
      assert Repeat(values, 0) + values == values;
    }
  }

  lemma {:induction false} RepeatCount(values: seq<string>, n: nat, v: string)
    ensures multiset(Repeat(values, n))[v] == n * multiset(values)[v]
  {
    if n == 0 {
    } else {
      RepeatCount(values, n - 1, v);
      assert n * multiset(values)[v] == (n - 1) * multiset(values)[v] + multiset(values)[v];
    }
  }

  /** Exact multiplicities, for duplicate options and for options that name Connection itself too. */
  lemma {:induction false} OutMultiplicity(es: seq<Field>, out: seq<Field>, key: string, v: string)
    ensures multiset(Values(PartitionedOut(es, out), key))[v]
         == multiset(Values(out, key))[v]
          + (if key == CONNECTION_KEY then multiset(NonEmptyValues(Values(es, key)))[v] else 0)
          + Occurrences(Nominations(es), key) * multiset(Values(es, key))[v]
  {
    OutValues(es, out, key);
    RepeatCount(Values(es, key), Occurrences(Nominations(es), key), v);
  }

  lemma KeptOrRepeated(values: seq<string>, n: nat)
    ensures values == (if n > 0 then [] else values) + Repeat(values, n) <==> values == [] || n <= 1
  {
    if n > 0 {
      RepeatSize(values, n);
      if values == [] {
        RepeatNothing(n);
      }
    }
  }

  /** A field name other than Connection is partitioned without loss, gain or reordering exactly when
      it is absent or nominated at most once. */
  lemma {:induction false} LosslessExactly(es: seq<Field>, key: string)
    requires key != CONNECTION_KEY
    ensures Values(es, key) == Values(Filtered(es, HopByHop(es)), key) + Values(PartitionedOut(es, []), key)
       <==> Values(es, key) == [] || Occurrences(Nominations(es), key) <= 1
  {
    var n := Occurrences(Nominations(es), key);
    OutValues(es, [], key);
    InValues(es, key);
    assert Values(PartitionedOut(es, []), key) == Repeat(Values(es, key), n);
    hide Repeat;
    KeptOrRepeated(Values(es, key), n);
  }

  lemma {:induction false} RepeatNothing(n: nat)
    ensures Repeat([], n) == []
  {
    if n == 0 {
    } else {
      RepeatNothing(n - 1);
    }
  }

  /** Which values those are: a value stays where it is, or goes if it is the empty string. */
  lemma {:induction false} NonEmptyByValues(a: seq<string>, b: seq<string>)
    ensures NonEmptyValues(a + b) == NonEmptyValues(a) + NonEmptyValues(b)
    ensures |a| == 1 ==> NonEmptyValues(a) == if a[0] == "" then [] else a
  {
    if b == [] {
      assert a + b == a;
    } else {
      assert (a + b)[..|a + b| - 1] == a + b[..|b| - 1];
      NonEmptyByValues(a, b[..|b| - 1]);
    }
  }

  /** The Connection values themselves lose just the empty ones, exactly when no option nominates
      Connection. */
  lemma {:induction false} ConnectionLosesEmptyExactly(es: seq<Field>)
    ensures Values(Filtered(es, HopByHop(es)), CONNECTION_KEY) == []
    ensures Values(PartitionedOut(es, []), CONNECTION_KEY) == NonEmptyValues(Values(es, CONNECTION_KEY))
       <==> Occurrences(Nominations(es), CONNECTION_KEY) == 0
  {
    var values, n := Values(es, CONNECTION_KEY), Occurrences(Nominations(es), CONNECTION_KEY);
    OutValues(es, [], CONNECTION_KEY);
    InValues(es, CONNECTION_KEY);
    if n > 0 {
      RepeatSize(values, n);
      assert Nominations(es) != [];
      assert values != [];
    }
  }

  // Where the moved fields stand.

  lemma {:induction false} WithValuesKeepsGrouped(out: seq<Field>, name: string, values: seq<string>)
    requires Grouped(out)
    ensures Grouped(WithValues(out, name, values))
  {
    hide Grouped;
    if values == [] {
    } else {
      var front := values[..|values| - 1];
      WithValuesKeepsGrouped(out, name, front);
      InsertedKeepsGrouped(WithValues(out, name, front), Field(name, values[|values| - 1]));
    }
  }

  lemma {:induction false} WithOptionsKeepsGrouped(out: seq<Field>, es: seq<Field>, options: seq<string>)
    requires Grouped(out)
    ensures Grouped(WithOptions(out, es, options))
  {
    hide Grouped;
    if options == [] {
    } else {
      var front, opt := options[..|options| - 1], options[|options| - 1];
      WithOptionsKeepsGrouped(out, es, front);
      WithValuesKeepsGrouped(WithOptions(out, es, front), opt, Values(es, Lower(opt)));
    }
  }

  /** In both containers the fields of one name still stand together after the partition. */
  lemma {:induction false} PartitionKeepsGrouped(es: seq<Field>, out: seq<Field>)
    ensures Grouped(out) ==> Grouped(PartitionedOut(es, out))
    ensures Grouped(es) ==> Grouped(Filtered(es, HopByHop(es)))
  {
    hide Grouped;
    var values := NonEmptyValues(Values(es, CONNECTION_KEY));
    if Grouped(out) {
      WithValuesKeepsGrouped(out, CONNECTION, values);
      WithOptionsKeepsGrouped(WithValues(out, CONNECTION, values), es, Nominations(es));
    }
    if Grouped(es) {
      FilteredKeepsGrouped(es, HopByHop(es));
    }
  }

  lemma {:induction false} WithValuesKeepsOthers(
      out: seq<Field>, name: string, values: seq<string>, keys: set<string>)
    requires Lower(name) in keys
    ensures Filtered(WithValues(out, name, values), keys) == Filtered(out, keys)
  {
    if values == [] {
    } else {
      var f, before := Field(name, values[|values| - 1]), WithValues(out, name, values[..|values| - 1]);
      WithValuesKeepsOthers(out, name, values[..|values| - 1], keys);
      assert WithValues(out, name, values) == Inserted(before, f);
      hide WithValues;
      hide Filtered;
      hide Inserted;
      InsertedKeepsOthers(before, f);
      FilteredTwice(before, {Lower(name)}, keys);
      FilteredTwice(Inserted(before, f), {Lower(name)}, keys);
      assert {Lower(name)} + keys == keys;
    }
  }

  lemma {:induction false} WithOptionsKeepsOthers(
      out: seq<Field>, es: seq<Field>, options: seq<string>, keys: set<string>)
    requires Keys(options) <= keys
    ensures Filtered(WithOptions(out, es, options), keys) == Filtered(out, keys)
  {
    hide Filtered;
    if options == [] {
    } else {
      var front, opt := options[..|options| - 1], options[|options| - 1];
      WithOptionsKeepsOthers(out, es, front, keys);
      WithValuesKeepsOthers(WithOptions(out, es, front), opt, Values(es, Lower(opt)), keys);
    }
  }

  /** Whatever the outgoing container holds of end-to-end names keeps its order and its values: the
      partition adds hop-by-hop fields between them and nothing else. */
  lemma {:induction false} PartitionKeepsOthers(es: seq<Field>, out: seq<Field>)
    ensures Filtered(PartitionedOut(es, out), HopByHop(es)) == Filtered(out, HopByHop(es))
  {
    var values := NonEmptyValues(Values(es, CONNECTION_KEY));
    hide Filtered;
    WithValuesKeepsOthers(out, CONNECTION, values, HopByHop(es));
    WithOptionsKeepsOthers(WithValues(out, CONNECTION, values), es, Nominations(es), HopByHop(es));
  }

  lemma NothingNominated(es: seq<Field>, out: seq<Field>)
    requires Values(es, CONNECTION_KEY) == []
    ensures HopByHop(es) == {CONNECTION_KEY} && PartitionedOut(es, out) == out
  {
    hide Values;
    assert Nominations(es) == [];
  }

  /** No two options are the same name. */
  predicate Distinct(options: seq<string>) {
    forall i, j :: 0 <= i < j < |options| ==> Lower(options[i]) != Lower(options[j])
  }

  lemma {:induction false} OccursSomewhere(options: seq<string>, key: string)
    ensures Occurrences(options, key) > 0 <==> exists i :: 0 <= i < |options| && Lower(options[i]) == key
  {
    if options == [] {
    } else {
      var front := options[..|options| - 1];
      OccursSomewhere(front, key);
      assert forall i :: 0 <= i < |front| ==> front[i] == options[i];
    }
  }

  lemma {:induction false} DistinctOccurOnce(options: seq<string>, key: string)
    requires Distinct(options)
    ensures Occurrences(options, key) <= 1
  {
    if options == [] {
    } else {
      var front := options[..|options| - 1];
      DistinctOccurOnce(front, key);
      OccursSomewhere(front, key);
    }
  }

  /** With distinct options, none of which is Connection, every name but Connection is found again in
      one of the two containers, all its values in order, and Connection has lost its empty values. */
  lemma {:induction false} DistinctIsLossless(es: seq<Field>, key: string)
    requires Distinct(Nominations(es)) && CONNECTION_KEY !in Keys(Nominations(es))
    ensures key != CONNECTION_KEY ==>
              Values(es, key) == Values(Filtered(es, HopByHop(es)), key) + Values(PartitionedOut(es, []), key)
    ensures Values(PartitionedOut(es, []), CONNECTION_KEY) == NonEmptyValues(Values(es, CONNECTION_KEY))
  {
    DistinctOccurOnce(Nominations(es), key);
    KeysAreOccurring(Nominations(es), CONNECTION_KEY);
    ConnectionLosesEmptyExactly(es);
    if key != CONNECTION_KEY {
      LosslessExactly(es, key);
    }
  }

  /** A second run changes neither container. */
  lemma {:induction false} PartitionIsIdempotent(es: seq<Field>, out: seq<Field>)
    ensures var kept, moved := Filtered(es, HopByHop(es)), PartitionedOut(es, out);
            && Filtered(kept, HopByHop(kept)) == kept
            && PartitionedOut(kept, moved) == moved
  {
    var kept := Filtered(es, HopByHop(es));
    InValues(es, CONNECTION_KEY);
    NothingNominated(kept, PartitionedOut(es, out));
    hide Filtered;
    hide HopByHop;
    hide PartitionedOut;
    assert CONNECTION_KEY in HopByHop(es);
    FilteredTwice(es, HopByHop(es), HopByHop(kept));
    assert HopByHop(es) + HopByHop(kept) == HopByHop(es);
  }

  lemma ScanSameTwice()
    ensures Scan("a,a") == ["a", "a"]
  {
    var a := Padded("", "a", "");
    var os := [a, a];
    assert os[1..] == [a] && os[1..][1..] == [] && a.Text() == "a";
    assert Options([a]) == ["a"] && Texts([a]) == ["a"];
    assert Texts(os) == ["a", "a"];
    assert Options(os) == ["a"] + Options([a]);
    assert [] + Texts(os) + [] == ["a", "a"];
    assert ["a", "a"][1..] == ["a"] && Join(["a"]) == "a" && Join(["a", "a"]) == "a,a";
    hide Scan;
    ScanPrinted([], os, []);
  }

  lemma NominatedTwice(values: seq<string>)
    requires values == ["a,a"]
    ensures OptionsIn(values) == ["a", "a"] && Occurrences(OptionsIn(values), Lower("a")) == 2
  {
    ScanSameTwice();
    hide Scan;
    hide Lower;
    var twice := ["a", "a"];
    assert values[..0] == [] && twice[..1] == ["a"] && twice[..1][..0] == [];
    assert Occurrences(twice[..1], Lower("a")) == 1;
  }

  lemma ValuesOfOne(f: Field, key: string)
    ensures Values([], key) == []
    ensures Values([f], key) == if Lower(f.name) == key then [f.value] else []
  {
    ValuesStep([], f, key);
    assert [] + [f] == [f];
  }

  lemma ValuesOfTwo(f: Field, g: Field, key: string)
    ensures Values([f, g], key)
         == (if Lower(f.name) == key then [f.value] else []) + (if Lower(g.name) == key then [g.value] else [])
  {
    ValuesStep([], f, key);
    ValuesStep([f], g, key);
    assert [] + [f] == [f] && [f] + [g] == [f, g];
  }

  /** One header whose field is sent on twice. */
  lemma DuplicateNominationDuplicates()
    ensures Values(PartitionedOut([Field(CONNECTION, "a,a"), Field("a", "1")], []), Lower("a")) == ["1", "1"]
  {
    hide Scan;
    var es := [Field(CONNECTION, "a,a"), Field("a", "1")];
    var key := Lower("a");
    assert |key| == 1 && |CONNECTION_KEY| == 10;
    hide Lower;
    ValuesOfTwo(es[0], es[1], key);
    ValuesOfTwo(es[0], es[1], CONNECTION_KEY);
    OutValues(es, [], key);
    assert Values([], key) == [];
    hide Values;
    NominatedTwice(["a,a"]);
    assert Repeat(["1"], 0) == [] && Repeat(["1"], 1) == ["1"] && Repeat(["1"], 2) == ["1"] + ["1"];
  }

  lemma NominatedSelf(name: string)
    requires IsOption(name)
    ensures OptionsIn([name]) == [name] && Occurrences([name], Lower(name)) == 1
    ensures NonEmptyValues([name]) == [name] && Repeat([name], 1) == [name]
  {
    ScanOption(name);
    hide Scan;
    hide Lower;
    var one := [name];
    assert one[..0] == [] && Repeat(one, 0) == [];
  }

  lemma SelfNomination(name: string)
    requires IsOption(name) && Lower(name) == CONNECTION_KEY
    ensures Values(PartitionedOut([Field(name, name)], []), CONNECTION_KEY) == [name, name]
  {
    hide Lower;
    hide OptionsIn;
    hide Occurrences;
    hide NonEmptyValues;
    hide Repeat;
    hide PartitionedOut;
    var es := [Field(name, name)];
    NominatedSelf(name);
    ValuesOfOne(es[0], CONNECTION_KEY);
    OutValues(es, [], CONNECTION_KEY);
    hide Values;
    hide IsOption;
    assert [name] + [name] == [name, name];
  }

  /** A Connection field that names Connection: its one value is sent on twice. */
  lemma SelfNominationDuplicates()
    ensures Values(PartitionedOut([Field(CONNECTION, CONNECTION)], []), CONNECTION_KEY) == [CONNECTION, CONNECTION]
  {
    hide Lower;
    hide PartitionedOut;
    hide Values;
    SelfNomination(CONNECTION);
  }

  // The order of the moved fields.

  function Named(name: string, values: seq<string>): (r: seq<Field>)
    ensures |r| == |values| && forall i :: 0 <= i < |r| ==> r[i] == Field(name, values[i])
  {
    if values == [] then [] else Named(name, values[..|values| - 1]) + [Field(name, values[|values| - 1])]
  }

  /** The fields that the options nominate, option by option. */
  function Moved(es: seq<Field>, options: seq<string>): seq<Field> {
    if options == [] then []
    else
      var opt := options[|options| - 1];
      Moved(es, options[..|options| - 1]) + Named(opt, Values(es, Lower(opt)))
  }

  lemma HasConcat(a: seq<Field>, b: seq<Field>, key: string)
    ensures Has(a + b, key) <==> Has(a, key) || Has(b, key)
  {
    hide Lower;
    if i :| 0 <= i < |a| && Lower(a[i].name) == key {
      assert (a + b)[i] == a[i];
    }
    if i :| 0 <= i < |b| && Lower(b[i].name) == key {
      assert (a + b)[|a| + i] == b[i];
    }
  }

  lemma {:induction false} NamedHas(name: string, values: seq<string>, key: string)
    ensures Has(Named(name, values), key) ==> Lower(name) == key
  {
    hide Lower;
    if values == [] {
    } else {
      var front, f := values[..|values| - 1], Field(name, values[|values| - 1]);
      NamedHas(name, front, key);
      HasConcat(Named(name, front), [f], key);
    }
  }

  lemma {:induction false} MovedHas(es: seq<Field>, options: seq<string>, key: string)
    requires Has(Moved(es, options), key)
    ensures key in Keys(options)
  {
    hide Lower;
    hide Values;
    if options == [] {
    } else {
      var front, opt := options[..|options| - 1], options[|options| - 1];
      HasConcat(Moved(es, front), Named(opt, Values(es, Lower(opt))), key);
      NamedHas(opt, Values(es, Lower(opt)), key);
      hide Has;
      if Has(Moved(es, front), key) {
        MovedHas(es, front, key);
      }
    }
  }

  lemma {:induction false} WithValuesAppends(out: seq<Field>, name: string, values: seq<string>)
    requires !Has(out, Lower(name))
    ensures WithValues(out, name, values) == out + Named(name, values)
  {
    hide Lower;
    if values == [] {
    } else {
      var front, f := values[..|values| - 1], Field(name, values[|values| - 1]);
      WithValuesAppends(out, name, front);
      var before := out + Named(name, front);
      assert front != [] ==> before[|before| - 1].name == name;
      assert front == [] ==> before == out;
      assert Inserted(before, f) == before + [f];
    }
  }

  lemma DistinctFront(options: seq<string>)
    requires options != [] && Distinct(options)
    ensures Distinct(options[..|options| - 1])
    ensures Lower(options[|options| - 1]) !in Keys(options[..|options| - 1])
  {
    hide Lower;
    var front, key := options[..|options| - 1], Lower(options[|options| - 1]);
    KeysAreOccurring(front, key);
    OccursSomewhere(front, key);
  }

  lemma {:induction false} WithOptionsAppends(out: seq<Field>, es: seq<Field>, options: seq<string>)
    requires Distinct(options) && forall key :: key in Keys(options) ==> !Has(out, key)
    ensures WithOptions(out, es, options) == out + Moved(es, options)
  {
    hide Lower;
    hide Has;
    hide Values;
    hide WithValues;
    hide Distinct;
    if options == [] {
    } else {
      var front, opt := options[..|options| - 1], options[|options| - 1];
      DistinctFront(options);
      WithOptionsAppends(out, es, front);
      var before, named := out + Moved(es, front), Named(opt, Values(es, Lower(opt)));
      HasConcat(out, Moved(es, front), Lower(opt));
      if Has(Moved(es, front), Lower(opt)) {
        MovedHas(es, front, Lower(opt));
      }
      WithValuesAppends(before, opt, Values(es, Lower(opt)));
      Assoc(out, Moved(es, front), named);
    }
  }

  /** With distinct options, none of which is Connection, and a container that has no field of these names
      yet, the moved fields follow what is there: the Connection fields that are not empty, and then,
      option by option and each in the option's own spelling, the fields that it nominates in order. */
  lemma {:induction false} PartitionAppends(es: seq<Field>, out: seq<Field>)
    requires Distinct(Nominations(es)) && CONNECTION_KEY !in Keys(Nominations(es))
    requires forall key :: key in HopByHop(es) ==> !Has(out, key)
    ensures PartitionedOut(es, out)
         == out + Named(CONNECTION, NonEmptyValues(Values(es, CONNECTION_KEY))) + Moved(es, Nominations(es))
  {
    hide Has;
    hide Values;
    hide WithValues;
    hide WithOptions;
    hide Keys;
    hide Distinct;
    var options, named := Nominations(es), Named(CONNECTION, NonEmptyValues(Values(es, CONNECTION_KEY)));
    hide Nominations;
    hide NonEmptyValues;
    hide Named;
    hide Moved;
    assert CONNECTION_KEY in HopByHop(es);
    WithValuesAppends(out, CONNECTION, NonEmptyValues(Values(es, CONNECTION_KEY)));
    forall key | key in Keys(options) ensures !Has(out + named, key) {
      HasConcat(out, named, key);
      NamedHas(CONNECTION, NonEmptyValues(Values(es, CONNECTION_KEY)), key);
      assert key in HopByHop(es);
    }
    WithOptionsAppends(out + named, es, options);
  }

  lemma ValuesOfFour(f: Field, g: Field, h: Field, i: Field, key: string)
    ensures Values([f, g, h, i], key)
         == (if Lower(f.name) == key then [f.value] else []) + (if Lower(g.name) == key then [g.value] else [])
          + (if Lower(h.name) == key then [h.value] else []) + (if Lower(i.name) == key then [i.value] else [])
  {
    hide Lower;
    ValuesOfTwo(f, g, key);
    ValuesStep([f, g], h, key);
    ValuesStep([f, g, h], i, key);
    hide Values;
    assert [f, g] + [h] == [f, g, h] && [f, g, h] + [i] == [f, g, h, i];
  }

  lemma TwoKeys(o: string, p: string)
    ensures Keys([o, p]) == {Lower(o), Lower(p)}
  {
    hide Lower;
    assert [o, p][..1] == [o] && [o][..0] == [];
    assert Keys([o]) == Keys([]) + {Lower(o)};
  }

  lemma OneValue(v: string, options: seq<string>)
    requires v != "" && Scan(v) == options
    ensures OptionsIn([v]) == options && NonEmptyValues([v]) == [v]
  {
    hide Scan;
    assert [v][..0] == [];
    assert [] + options == options;
  }

  lemma MovedTwo(es: seq<Field>, o: string, p: string)
    ensures Moved(es, [o, p]) == Named(o, Values(es, Lower(o))) + Named(p, Values(es, Lower(p)))
  {
    hide Values;
    hide Lower;
    assert [o, p][..1] == [o] && [o][..0] == [];
    assert Moved(es, [o]) == Moved(es, []) + Named(o, Values(es, Lower(o)));
  }

  lemma NamedOne(name: string, v: string)
    ensures Named(name, [v]) == [Field(name, v)]
  {
    assert [v][..0] == [];
  }

  lemma MovesTwo(es: seq<Field>, v: string, o: string, p: string, x: string, y: string)
    requires v != "" && Scan(v) == [o, p] && Values(es, CONNECTION_KEY) == [v]
    requires Values(es, Lower(o)) == [x] && Values(es, Lower(p)) == [y]
    requires Lower(o) != Lower(p) && CONNECTION_KEY !in {Lower(o), Lower(p)}
    ensures HopByHop(es) == {Lower(o), Lower(p), CONNECTION_KEY}
    ensures PartitionedOut(es, []) == [Field(CONNECTION, v), Field(o, x), Field(p, y)]
  {
    hide Lower;
    hide PartitionedOut;
    hide Scan;
    hide Values;
    hide Named;
    hide Moved;
    hide Keys;
    hide OptionsIn;
    hide NonEmptyValues;
    OneValue(v, [o, p]);
    TwoKeys(o, p);
    assert forall key :: !Has([], key);
    hide Has;
    assert Nominations(es) == [o, p];
    hide Nominations;
    PartitionAppends(es, []);
    MovedTwo(es, o, p);
    NamedOne(CONNECTION, v);
    NamedOne(o, x);
    NamedOne(p, y);
  }

  /** Two nominated fields in the order other than that of the options, and one that stays. */
  lemma MovesInOptionOrder(c: Field, g: Field, h: Field, f: Field, o: string, p: string)
    requires IsOption(o) && IsOption(p) && c.value == o + ", " + p
    requires Lower(c.name) == CONNECTION_KEY && Lower(f.name) == Lower(o) && Lower(g.name) == Lower(p)
    requires Lower(o) != Lower(p) && CONNECTION_KEY !in {Lower(o), Lower(p)}
    requires Lower(h.name) !in {CONNECTION_KEY, Lower(o), Lower(p)}
    ensures PartitionedOut([c, g, h, f], []) == [Field(CONNECTION, c.value), Field(o, f.value), Field(p, g.value)]
    ensures Filtered([c, g, h, f], HopByHop([c, g, h, f])) == [h]
  {
    hide Lower;
    hide Values;
    hide PartitionedOut;
    hide HopByHop;
    hide Scan;
    ScanTwo(o, p);
    hide IsOption;
    ValuesOfFour(c, g, h, f, CONNECTION_KEY);
    ValuesOfFour(c, g, h, f, Lower(o));
    ValuesOfFour(c, g, h, f, Lower(p));
    MovesTwo([c, g, h, f], c.value, o, p, f.value, g.value);
    FilteredOfFour(c, g, h, f, HopByHop([c, g, h, f]));
  }

  lemma FilteredOfFour(f: Field, g: Field, h: Field, i: Field, keys: set<string>)
    requires Lower(f.name) in keys && Lower(g.name) in keys && Lower(h.name) !in keys && Lower(i.name) in keys
    ensures Filtered([f, g, h, i], keys) == [h]
  {
    hide Lower;
    FilteredByFields([f], [g], keys);
    FilteredByFields([g], [h], keys);
    FilteredByFields([h], [i], keys);
    FilteredByFields([i], [], keys);
    hide Filtered;
    FilteredByFields([f] + [g], [h], keys);
    FilteredByFields([f] + [g] + [h], [i], keys);
    assert [f] + [g] + [h] + [i] == [f, g, h, i];
  }

  /** One header, partitioned: names match in any spelling, the moved fields take the options' spelling
      and order, and Host stays. */
  lemma PartitionsAnySpelling()
    ensures var es := [Field("connection", "upgrade, te"), Field("TE", "trailers"), Field("Host", "example.org"),
                       Field("Upgrade", "h2c")];
            && PartitionedOut(es, [])
            == [Field("Connection", "upgrade, te"), Field("upgrade", "h2c"), Field("te", "trailers")]
            && Filtered(es, HopByHop(es)) == [Field("Host", "example.org")]
  {
    hide PartitionedOut;
    hide Filtered;
    hide HopByHop;
    hide Lower;
    LowerSame("connection", CONNECTION);
    LowerSame("Upgrade", "upgrade");
    LowerSame("TE", "te");
    LowerSame("te", "upgrade");
    LowerSame(CONNECTION, "upgrade");
    LowerSame(CONNECTION, "te");
    LowerSame(CONNECTION, "Host");
    LowerSame("Host", "upgrade");
    LowerSame("Host", "te");
    assert "upgrade" + ", " + "te" == "upgrade, te" && CONNECTION == "Connection";
    MovesInOptionOrder(Field("connection", "upgrade, te"), Field("TE", "trailers"), Field("Host", "example.org"),
                       Field("Upgrade", "h2c"), "upgrade", "te");
  }
}
