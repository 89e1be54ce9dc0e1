/**
 The header field container: an ordered list of name and value pairs whose names compare without
 regard to case. Fields of one name are kept together, in the order in which they were inserted.
 */
module HeaderFields {
  datatype Field = Field(name: string, value: string)

  function LowerChar(c: char): char {
    if 'A' <= c <= 'Z' then c - 'A' + 'a' else c
  }

  /** The form under which names are compared. */
  function Lower(s: string): (r: string)
    ensures |r| == |s|
  {
    if s == "" then "" else [LowerChar(s[0])] + Lower(s[1..])
  }

  /** The two characters are the same letter, in upper or lower case, or the same character. */
  predicate SameLetter(c: char, d: char) {
    || c == d
    || ('A' <= c <= 'Z' && d as int == c as int + 32)
    || ('A' <= d <= 'Z' && c as int == d as int + 32)
  }

  /** Names are compared without regard to the case of ASCII letters, and to nothing else. */
  lemma {:induction false} LowerSame(s: string, t: string)
    ensures Lower(s) == Lower(t) <==> |s| == |t| && forall i :: 0 <= i < |s| ==> SameLetter(s[i], t[i])
  {
    if s == "" || t == "" {
    } else {
      LowerSame(s[1..], t[1..]);
      assert Lower(s) == [LowerChar(s[0])] + Lower(s[1..]) && Lower(t) == [LowerChar(t[0])] + Lower(t[1..]);
      assert Lower(s)[1..] == Lower(s[1..]) && Lower(t)[1..] == Lower(t[1..]);
      assert SameLetter(s[0], t[0]) <==> LowerChar(s[0]) == LowerChar(t[0]);
      assert forall i :: 0 < i < |s| ==> s[i] == s[1..][i - 1];
      assert forall i :: 0 < i < |t| ==> t[i] == t[1..][i - 1];
    }
  }

  predicate Has(es: seq<Field>, key: string) {
    exists i :: 0 <= i < |es| && Lower(es[i].name) == key
  }

  /** The values of a name, in order. */
  function Values(es: seq<Field>, key: string): seq<string> {
    if es == [] then []
    else
      var f := es[|es| - 1];
      var front := Values(es[..|es| - 1], key);
      if Lower(f.name) == key then front + [f.value] else front
  }

  /** A new field goes behind the last one of its name, or to the end of the list. */
  function Inserted(es: seq<Field>, f: Field): seq<Field> {
    if !Has(es, Lower(f.name)) || Lower(es[|es| - 1].name) == Lower(f.name) then es + [f]
    else Inserted(es[..|es| - 1], f) + [es[|es| - 1]]
  }

  /** The list without the fields of some names, in the same order. */
  function Filtered(es: seq<Field>, keys: set<string>): seq<Field> {
    if es == [] then []
    else
      var f := es[|es| - 1];
      var front := Filtered(es[..|es| - 1], keys);
      if Lower(f.name) in keys then front else front + [f]
  }

  lemma ValuesStep(es: seq<Field>, f: Field, key: string)
    ensures Values(es + [f], key) == if Lower(f.name) == key then Values(es, key) + [f.value] else Values(es, key)
  {
    assert (es + [f])[..|es + [f]| - 1] == es;
  }

  /** Inserting appends to the values of the field's own name and to no others. */
  lemma {:induction false} ValuesInserted(es: seq<Field>, f: Field, key: string)
    ensures Values(Inserted(es, f), key)
         == if Lower(f.name) == key then Values(es, key) + [f.value] else Values(es, key)
  {
    if !Has(es, Lower(f.name)) || Lower(es[|es| - 1].name) == Lower(f.name) {
      ValuesStep(es, f, key);
    } else {
      var front, last := es[..|es| - 1], es[|es| - 1];
      ValuesInserted(front, f, key);
      ValuesStep(Inserted(front, f), last, key);
    }
  }

  /** Fields of one name stand next to each other. */
  ghost predicate Grouped(es: seq<Field>) {
    forall i, j, k :: 0 <= i < j < k < |es| && Lower(es[i].name) == Lower(es[k].name) ==>
      Lower(es[j].name) == Lower(es[i].name)
  }

  /** Inserting does not move the fields of other names. */
  lemma {:induction false} InsertedKeepsOthers(es: seq<Field>, f: Field)
    ensures Filtered(Inserted(es, f), {Lower(f.name)}) == Filtered(es, {Lower(f.name)})
  {
    if !Has(es, Lower(f.name)) || Lower(es[|es| - 1].name) == Lower(f.name) {
      assert (es + [f])[..|es|] == es;
    } else {
      var front, last := es[..|es| - 1], es[|es| - 1];
      InsertedKeepsOthers(front, f);
      assert (Inserted(front, f) + [last])[..|Inserted(front, f)|] == Inserted(front, f);
    }
  }

  /** The place of a new field: behind `n` fields, of which the last has its name if any has. */
  lemma {:induction false} InsertedPlace(es: seq<Field>, f: Field) returns (n: nat)
    ensures n <= |es| && Inserted(es, f) == es[..n] + [f] + es[n..]
    ensures if Has(es, Lower(f.name)) then n > 0 && Lower(es[n - 1].name) == Lower(f.name) else n == |es|
    ensures !Has(es[n..], Lower(f.name))
  {
    hide Lower;
    if !Has(es, Lower(f.name)) || Lower(es[|es| - 1].name) == Lower(f.name) {
      n := |es|;
      assert es[..n] == es && es[n..] == [];
    } else {
      var front, last := es[..|es| - 1], es[|es| - 1];
      assert es == front + [last];
      n := InsertedPlace(front, f);
      assert es[..n] == front[..n] && es[n..] == front[n..] + [last];
    }
  }

  /** Inserting keeps the fields of one name together. */
  lemma InsertedKeepsGrouped(es: seq<Field>, f: Field)
    requires Grouped(es)
    ensures Grouped(Inserted(es, f))
  {
    var n := InsertedPlace(es, f);
    var r, key := Inserted(es, f), Lower(f.name);
    hide Lower;
    hide Inserted;
    assert forall i :: 0 <= i < |r| ==> r[i] == if i < n then es[i] else if i == n then f else es[i - 1];
    assert forall i :: n <= i < |es| ==> es[i] == es[n..][i - n];
  }

  lemma {:induction false} FilteredSelects(es: seq<Field>, keys: set<string>, f: Field)
    requires f in Filtered(es, keys)
    ensures f in es
  {
    var front := es[..|es| - 1];
    if f in Filtered(front, keys) {
      FilteredSelects(front, keys, f);
    }
  }

  /** Behind a field of that name there are only fields of that name. */
  predicate ClosesWith(es: seq<Field>, key: string) {
    forall i, j :: 0 <= i < j < |es| && Lower(es[i].name) == key ==> Lower(es[j].name) == key
  }

  lemma {:induction false} FilteredClosesWith(es: seq<Field>, keys: set<string>, key: string)
    requires ClosesWith(es, key)
    ensures ClosesWith(Filtered(es, keys), key)
  {
    if es == [] {
    } else {
      var front, f := es[..|es| - 1], es[|es| - 1];
      FilteredClosesWith(front, keys, key);
      var kept := Filtered(front, keys);
      forall i | 0 <= i < |kept| && Lower(kept[i].name) == key ensures Lower(f.name) == key {
        FilteredSelects(front, keys, kept[i]);
      }
    }
  }

  /** Erasing keeps them together too. */
  lemma {:induction false} FilteredKeepsGrouped(es: seq<Field>, keys: set<string>)
    requires Grouped(es)
    ensures Grouped(Filtered(es, keys))
  {
    if es == [] {
    } else {
      var front, f := es[..|es| - 1], es[|es| - 1];
      FilteredKeepsGrouped(front, keys);
      FilteredClosesWith(front, keys, Lower(f.name));
    }
  }

  lemma {:induction false} ValuesFiltered(es: seq<Field>, keys: set<string>, key: string)
    ensures Values(Filtered(es, keys), key) == if key in keys then [] else Values(es, key)
  {
    if es == [] {
    } else {
      var front, f := es[..|es| - 1], es[|es| - 1];
      ValuesFiltered(front, keys, key);
      if Lower(f.name) !in keys {
        ValuesStep(Filtered(front, keys), f, key);
      }
    }
  }

  lemma {:induction false} FilteredTwice(es: seq<Field>, a: set<string>, b: set<string>)
    ensures Filtered(Filtered(es, a), b) == Filtered(es, a + b)
  {
    if es == [] {
    } else {
      var front, f := es[..|es| - 1], es[|es| - 1];
      FilteredTwice(front, a, b);
      if Lower(f.name) !in a {
        var kept := Filtered(front, a);
        assert (kept + [f])[..|kept|] == kept;
      }
    }
  }

  /** Erasing works field by field: a field stays where it is, or goes if its name is erased. */
  lemma {:induction false} FilteredByFields(a: seq<Field>, b: seq<Field>, keys: set<string>)
    ensures Filtered(a + b, keys) == Filtered(a, keys) + Filtered(b, keys)
    ensures |a| == 1 ==> Filtered(a, keys) == if Lower(a[0].name) in keys then [] else a
  {
    if b == [] {
      assert a + b == a;
    } else {
      assert (a + b)[..|a + b| - 1] == a + b[..|b| - 1];
      FilteredByFields(a, b[..|b| - 1], keys);
    }
  }

  lemma {:induction false} FilteredNone(es: seq<Field>)
    ensures Filtered(es, {}) == es
  {
    if es == [] {
    } else {
      FilteredNone(es[..|es| - 1]);
    }
  }

  class Fields {
    var entries: seq<Field>

    constructor ()
      ensures entries == []
    {
      entries := [];
    }

    method Insert(name: string, value: string)
      modifies this
      ensures entries == Inserted(old(entries), Field(name, value))
    {
      entries := Inserted(entries, Field(name, value));
    }

    /** Removes every field of a name. */
    method Erase(name: string)
      modifies this
      ensures entries == Filtered(old(entries), {Lower(name)})
    {
      entries := Filtered(entries, {Lower(name)});
    }

    /** The values of the fields of a name. */
    function EqualRange(name: string): seq<string>
      reads this
    {
      Values(entries, Lower(name))
    }
  }
}
