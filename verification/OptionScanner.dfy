/**
 The scanner that turns the value of a Connection field into connection options.

 A parser consumes a string from the front. Before every character it first skips ASCII space.
 */
module OptionScanner {
  import opened Common

  predicate IsSpace(c: char) {
    c == ' ' || 9 <= c as int <= 13
  }

  function Skip(s: string): (rest: string)
    ensures |rest| <= |s|
    ensures rest != "" ==> !IsSpace(rest[0])
  {
    if s != "" && IsSpace(s[0]) then Skip(s[1..]) else s
  }

  /** One comma. */
  function Comma(s: string): (r: Option<string>)
    ensures r.Some? ==> |r.value| < |s|
  {
    var rest := Skip(s);
    if rest != "" && rest[0] == ',' then Some(rest[1..]) else None
  }

  /** Any character but a comma: the difference tries the comma first. */
  function OptionChar(s: string): (r: Option<(char, string)>)
    ensures r.Some? ==> |r.value.1| < |s|
  {
    if Comma(s).Some? then None
    else
      var rest := Skip(s);
      if rest != "" then Some((rest[0], rest[1..])) else None
  }

  /** Zero or more option characters. */
  function OptionChars(s: string): (r: (string, string))
    ensures |r.1| <= |s|
    decreases |s|
  {
    match OptionChar(s)
    case None => ("", s)
    case Some((c, rest)) => var (cs, end) := OptionChars(rest); ([c] + cs, end)
  }

  /** One or more option characters. */
  function OptionRule(s: string): (r: Option<(string, string)>)
    ensures r.Some? ==> |r.value.1| < |s|
  {
    match OptionChar(s)
    case None => None
    case Some((c, rest)) => var (cs, end) := OptionChars(rest); Some(([c] + cs, end))
  }

  /** Zero or more commas. */
  function Commas(s: string): string
    decreases |s|
  {
    match Comma(s)
    case None => s
    case Some(rest) => Commas(rest)
  }

  /** Zero or more times a comma and an option. */
  function MoreOptions(s: string): seq<string>
    decreases |s|
  {
    match Comma(s)
    case None => []
    case Some(rest) =>
      match OptionRule(rest)
      case None => []
      case Some((o, end)) => [o] + MoreOptions(end)
  }

  /** The options that a field value adds; none if the grammar does not match at all. */
  function Scan(s: string): seq<string> {
    match OptionRule(Commas(s))
    case None => []
    case Some((o, end)) => [o] + MoreOptions(end)
  }

  // What the scanner computes, without parsing.

  /** The pieces between commas; there is always at least one. */
  function Split(s: string): (ps: seq<string>)
    ensures ps != []
  {
    if s == "" then [""]
    else if s[0] == ',' then [""] + Split(s[1..])
    else var ps := Split(s[1..]); [[s[0]] + ps[0]] + ps[1..]
  }

  /** Deletes every space. */
  function Strip(p: string): string {
    if p == "" then "" else (if IsSpace(p[0]) then "" else [p[0]]) + Strip(p[1..])
  }

  function StripAll(ps: seq<string>): (qs: seq<string>)
    ensures |qs| == |ps| && forall i :: 0 <= i < |ps| ==> qs[i] == Strip(ps[i])
  {
    if ps == [] then [] else [Strip(ps[0])] + StripAll(ps[1..])
  }

  /** The list elements of a field value, empty ones included. */
  function Elements(s: string): (es: seq<string>)
    ensures es != []
  {
    StripAll(Split(s))
  }

  function DropEmpty(es: seq<string>): seq<string> {
    if es != [] && es[0] == "" then DropEmpty(es[1..]) else es
  }

  function UntilEmpty(es: seq<string>): seq<string> {
    if es == [] || es[0] == "" then [] else [es[0]] + UntilEmpty(es[1..])
  }

  function NonEmpty(es: seq<string>): seq<string> {
    if es == [] then [] else (if es[0] == "" then [] else [es[0]]) + NonEmpty(es[1..])
  }

  /** The elements from the first that is not empty up to the next that is. */
  function Nominated(s: string): seq<string> {
    UntilEmpty(DropEmpty(Elements(s)))
  }

  lemma {:induction false} SkipKeepsElements(s: string)
    ensures Elements(Skip(s)) == Elements(s)
  {
    if s == "" || !IsSpace(s[0]) {
    } else {
      SkipKeepsElements(s[1..]);
      var ps := Split(s[1..]);
      assert Split(s) == [[s[0]] + ps[0]] + ps[1..];
      assert Split(s)[1..] == ps[1..] && Split(s)[0][1..] == ps[0];
      assert Strip(Split(s)[0]) == Strip(ps[0]);
    }
  }

  /** The first element by its first character that is not a space. */
  lemma ElementsByHead(s: string)
    ensures var rest := Skip(s);
            Elements(s) ==
            if rest == "" then [""]
            else if rest[0] == ',' then [""] + Elements(rest[1..])
            else [[rest[0]] + Elements(rest[1..])[0]] + Elements(rest[1..])[1..]
  {
    SkipKeepsElements(s);
    var rest := Skip(s);
    if rest != "" && rest[0] != ',' {
      var ps := Split(rest[1..]);
      assert ([rest[0]] + ps[0])[1..] == ps[0];
    }
  }

  /** What follows the first element: the elements after the next comma. */
  predicate Follows(end: string, es: seq<string>)
    requires es != []
  {
    match Comma(end)
    case None => |es| == 1
    case Some(next) => Elements(next) == es[1..]
  }

  lemma {:induction false} OptionCharsTakeElement(s: string)
    ensures var (cs, end) := OptionChars(s);
            cs == Elements(s)[0] && Follows(end, Elements(s))
    decreases |s|
  {
    ElementsByHead(s);
    var rest := Skip(s);
    if rest == "" || rest[0] == ',' {
    } else {
      OptionCharsTakeElement(rest[1..]);
    }
  }

  lemma OptionRuleTakesElement(s: string)
    ensures match OptionRule(s)
            case None => Elements(s)[0] == ""
            case Some((o, end)) => o == Elements(s)[0] != "" && Follows(end, Elements(s))
  {
    OptionCharsTakeElement(s);
  }

  lemma {:induction false} MoreOptionsTakeUntilEmpty(s: string)
    ensures MoreOptions(s) == match Comma(s) case None => [] case Some(rest) => UntilEmpty(Elements(rest))
    decreases |s|
  {
    match Comma(s)
    case None =>
    case Some(rest) =>
      OptionRuleTakesElement(rest);
      match OptionRule(rest) {
        case None =>
        case Some((o, end)) => MoreOptionsTakeUntilEmpty(end);
      }
  }

  lemma {:induction false} CommasDropEmpty(s: string)
    ensures DropEmpty(Elements(Commas(s))) == DropEmpty(Elements(s))
    ensures Comma(Commas(s)) == None
    decreases |s|
  {
    match Comma(s)
    case None =>
    case Some(rest) =>
      ElementsByHead(s);
      assert Elements(s)[1..] == Elements(rest);
      CommasDropEmpty(rest);
  }

  /** For every string, the scanner yields the elements between commas with all space deleted, from
      the first that is not empty up to the next that is. */
  lemma {:induction false} ScanIsDeclarative(s: string)
    ensures Scan(s) == Nominated(s)
  {
    var rest := Commas(s);
    CommasDropEmpty(s);
    ElementsByHead(rest);
    OptionRuleTakesElement(rest);
    match OptionRule(rest)
    case None =>
    case Some((o, end)) =>
      MoreOptionsTakeUntilEmpty(end);
      assert UntilEmpty(Elements(rest)) == [o] + UntilEmpty(Elements(rest)[1..]);
  }

  // Which options the scanner misses.

  /** No empty element stands between two that are not empty. */
  predicate NoGap(es: seq<string>) {
    forall i, j, k :: 0 <= i < j < k < |es| && es[i] != "" && es[k] != "" ==> es[j] != ""
  }

  /** After an empty element there are only empty ones. */
  predicate EmptyTail(es: seq<string>) {
    forall j, k :: 0 <= j < k < |es| && es[j] == "" ==> es[k] == ""
  }

  lemma {:induction false} AllEmpty(es: seq<string>)
    ensures NonEmpty(es) == [] <==> forall k :: 0 <= k < |es| ==> es[k] == ""
  {
    if es == [] {
    } else {
      AllEmpty(es[1..]);
      assert forall k :: 0 < k < |es| ==> es[k] == es[1..][k - 1];
    }
  }

  lemma {:induction false} UntilEmptyIsAll(es: seq<string>)
    ensures UntilEmpty(es) <= NonEmpty(es)
    ensures UntilEmpty(es) == NonEmpty(es) <==> EmptyTail(es)
  {
    if es == [] {
    } else {
      var tail := es[1..];
      assert forall k :: 0 < k < |es| ==> es[k] == tail[k - 1];
      if es[0] == "" {
        AllEmpty(tail);
      } else {
        UntilEmptyIsAll(tail);
        assert EmptyTail(es) <==> EmptyTail(tail);
        assert NonEmpty(es)[1..] == NonEmpty(tail);
      }
    }
  }

  lemma {:induction false} DropEmptyKeeps(es: seq<string>)
    ensures NonEmpty(DropEmpty(es)) == NonEmpty(es)
    ensures NoGap(es) <==> EmptyTail(DropEmpty(es))
  {
    if es == [] {
    } else {
      var tail := es[1..];
      assert forall k :: 0 < k < |es| ==> es[k] == tail[k - 1];
      if es[0] == "" {
        DropEmptyKeeps(tail);
        assert NoGap(es) <==> NoGap(tail);
      } else if NoGap(es) {
        forall j, k | 0 <= j < k < |es| && es[j] == "" ensures es[k] == "" {
          assert 0 < j;
        }
      }
    }
  }

  /** Section 7 of RFC 7230 makes every element that is not empty an option. The scanner finds only the
      first ones of them, and all of them if and only if no empty element stands between two others. */
  lemma ScanFindsAllOptionsExactly(s: string)
    ensures Scan(s) <= NonEmpty(Elements(s))
    ensures Scan(s) == NonEmpty(Elements(s)) <==> NoGap(Elements(s))
  {
    ScanIsDeclarative(s);
    DropEmptyKeeps(Elements(s));
    UntilEmptyIsAll(DropEmpty(Elements(s)));
  }

  /** The elements from the first empty one on. */
  function FromEmpty(es: seq<string>): seq<string> {
    if es == [] || es[0] == "" then es else FromEmpty(es[1..])
  }

  lemma {:induction false} UntilAndFromEmpty(es: seq<string>)
    ensures NonEmpty(es) == UntilEmpty(es) + NonEmpty(FromEmpty(es))
  {
    if es == [] || es[0] == "" {
    } else {
      UntilAndFromEmpty(es[1..]);
    }
  }

  /** The options of a list that stand behind a gap. */
  function BehindGap(es: seq<string>): seq<string> {
    NonEmpty(FromEmpty(DropEmpty(es)))
  }

  /** The scanner misses exactly the options behind the first gap. */
  lemma ScanMissesBehindGap(s: string)
    ensures NonEmpty(Elements(s)) == Scan(s) + BehindGap(Elements(s))
  {
    ScanIsDeclarative(s);
    DropEmptyKeeps(Elements(s));
    UntilAndFromEmpty(DropEmpty(Elements(s)));
  }

  /** One value for which the scanner misses an option. */
  lemma ScanMissesAfterGap()
    ensures Scan("a,,b") == ["a"] && NonEmpty(Elements("a,,b")) == ["a", "b"]
  {
    var ps := ["a", "", "b"];
    assert Join(ps[1..][1..]) == "b" && Join(ps[1..]) == ",b" && Join(ps) == "a,,b";
    SplitJoin(ps);
    StripOption("a");
    StripOption("b");
    assert Elements("a,,b") == ps;
    ScanIsDeclarative("a,,b");
  }

  // Round trip.

  predicate IsOption(o: string) {
    o != "" && forall i :: 0 <= i < |o| ==> o[i] != ',' && !IsSpace(o[i])
  }

  predicate IsBlank(p: string) {
    forall i :: 0 <= i < |p| ==> IsSpace(p[i])
  }

  predicate CommaFree(p: string) {
    ',' !in p
  }

  /** An option with the white space written around it. */
  datatype Padded = Padded(before: string, option: string, after: string) {
    predicate Valid() {
      IsBlank(before) && IsOption(option) && IsBlank(after)
    }
    function Text(): string {
      before + option + after
    }
  }

  function Join(ps: seq<string>): string
    requires ps != []
  {
    if |ps| == 1 then ps[0] else ps[0] + "," + Join(ps[1..])
  }

  function Texts(os: seq<Padded>): seq<string> {
    if os == [] then [] else [os[0].Text()] + Texts(os[1..])
  }

  function Options(os: seq<Padded>): seq<string> {
    if os == [] then [] else [os[0].option] + Options(os[1..])
  }

  lemma {:induction false} SplitPiece(p: string, rest: string)
    requires CommaFree(p)
    ensures Split(p) == [p]
    ensures Split(p + "," + rest) == [p] + Split(rest)
  {
    if p == "" {
      assert ("," + rest)[1..] == rest;
      assert p + "," + rest == "," + rest;
    } else {
      SplitPiece(p[1..], rest);
      assert (p + "," + rest)[1..] == p[1..] + "," + rest;
      assert [p[0]] + p[1..] == p;
    }
  }

  lemma {:induction false} SplitJoin(ps: seq<string>)
    requires ps != [] && forall p :: p in ps ==> CommaFree(p)
    ensures Split(Join(ps)) == ps
  {
    assert CommaFree(ps[0]);
    if |ps| == 1 {
      SplitPiece(ps[0], "");
    } else {
      SplitPiece(ps[0], Join(ps[1..]));
      SplitJoin(ps[1..]);
    }
  }

  lemma {:induction false} StripConcat(a: string, b: string)
    ensures Strip(a + b) == Strip(a) + Strip(b)
  {
    if a == "" {
      assert a + b == b;
    } else {
      assert (a + b)[1..] == a[1..] + b;
      StripConcat(a[1..], b);
    }
  }

  lemma {:induction false} StripBlank(p: string)
    requires IsBlank(p)
    ensures Strip(p) == ""
  {
    if p == "" {
    } else {
      StripBlank(p[1..]);
    }
  }

  lemma {:induction false} StripOption(o: string)
    requires forall i :: 0 <= i < |o| ==> !IsSpace(o[i])
    ensures Strip(o) == o
  {
    if o == "" {
    } else {
      StripOption(o[1..]);
    }
  }

  lemma StripText(o: Padded)
    requires o.Valid()
    ensures Strip(o.Text()) == o.option && CommaFree(o.Text())
  {
    StripConcat(o.before + o.option, o.after);
    StripConcat(o.before, o.option);
    StripBlank(o.before);
    StripBlank(o.after);
    StripOption(o.option);
  }

  lemma BlankEnds(trail: seq<string>)
    requires trail == [] || IsBlank(trail[0])
    ensures UntilEmpty(StripAll(trail)) == []
  {
    if trail != [] {
      StripBlank(trail[0]);
    }
  }

  lemma UntilEmptyStep(p: string, ps: seq<string>)
    requires Strip(p) != ""
    ensures UntilEmpty(StripAll([p] + ps)) == [Strip(p)] + UntilEmpty(StripAll(ps))
  {
    hide Strip;
    assert ([p] + ps)[1..] == ps;
    assert StripAll([p] + ps)[1..] == StripAll(ps);
  }

  lemma {:induction false} StripTexts(os: seq<Padded>, trail: seq<string>)
    requires forall o :: o in os ==> o.Valid()
    requires trail == [] || IsBlank(trail[0])
    ensures UntilEmpty(StripAll(Texts(os) + trail)) == Options(os)
    ensures forall p :: p in Texts(os) ==> CommaFree(p)
  {
    hide Strip;
    hide StripAll;
    if os == [] {
      assert Texts(os) + trail == trail;
      BlankEnds(trail);
    } else {
      StripText(os[0]);
      StripTexts(os[1..], trail);
      UntilEmptyStep(os[0].Text(), Texts(os[1..]) + trail);
      assert Texts(os) + trail == [os[0].Text()] + (Texts(os[1..]) + trail);
    }
  }

  lemma {:induction false} DropBlank(lead: seq<string>, ps: seq<string>)
    requires forall p :: p in lead ==> IsBlank(p)
    ensures DropEmpty(StripAll(lead + ps)) == DropEmpty(StripAll(ps))
    ensures forall p :: p in lead ==> CommaFree(p)
  {
    if lead == [] {
      assert lead + ps == ps;
    } else {
      assert IsBlank(lead[0]);
      StripBlank(lead[0]);
      assert (lead + ps)[1..] == lead[1..] + ps;
      assert StripAll(lead + ps)[1..] == StripAll(lead[1..] + ps);
      DropBlank(lead[1..], ps);
    }
  }

  /** Printing options with any number of empty elements in front, any space around each of them and,
      behind, nothing or an empty element and whatever else, and scanning the text, gives them back. */
  lemma {:induction false} ScanPrinted(lead: seq<string>, os: seq<Padded>, trail: seq<string>)
    requires os != [] && (forall o :: o in os ==> o.Valid())
    requires forall p :: p in lead ==> IsBlank(p)
    requires (forall p :: p in trail ==> CommaFree(p)) && (trail == [] || IsBlank(trail[0]))
    ensures Scan(Join(lead + Texts(os) + trail)) == Options(os)
  {
    var ps := lead + Texts(os) + trail;
    assert ps == lead + (Texts(os) + trail);
    StripTexts(os, trail);
    DropBlank(lead, Texts(os) + trail);
    SplitJoin(ps);
    ScanIsDeclarative(Join(ps));
    StripText(os[0]);
    assert StripAll(Texts(os) + trail)[0] == os[0].option;
  }

  // Which characters make up an option.

  /** The ASCII spaces: blank, tab, line feed, vertical tab, form feed and carriage return. */
  predicate IsAsciiSpace(c: char) {
    c in {' ', '\t', '\n', '\U{000B}', '\U{000C}', '\r'}
  }

  lemma SpaceIsAscii(c: char)
    ensures IsSpace(c) <==> IsAsciiSpace(c)
  {
  }

  function Unspaced(s: string): string {
    if s == "" then "" else (if IsAsciiSpace(s[0]) then "" else [s[0]]) + Unspaced(s[1..])
  }

  lemma ElementsStep(s: string)
    requires s != ""
    ensures var es := Elements(s[1..]);
            Elements(s) == if s[0] == ',' then [""] + es
                           else [(if IsAsciiSpace(s[0]) then "" else [s[0]]) + es[0]] + es[1..]
  {
    SpaceIsAscii(s[0]);
    hide IsSpace;
    hide IsAsciiSpace;
    var ps := Split(s[1..]);
    assert s[0] != ',' ==> ([s[0]] + ps[0])[1..] == ps[0];
  }

  lemma JoinFirst(x: string, e: string, es: seq<string>)
    ensures Join([x + e] + es) == x + Join([e] + es)
    ensures Join(["", e] + es) == "," + Join([e] + es)
  {
    assert ([x + e] + es)[1..] == es && ([e] + es)[1..] == es;
    assert ["", e] + es == [""] + ([e] + es) && (["", e] + es)[1..] == [e] + es;
  }

  /** The elements are the parts between commas, and put together again with commas they are the string
      without its spaces: no other character is lost, added or moved. */
  lemma {:induction false} ElementsJoined(s: string)
    ensures Join(Elements(s)) == Unspaced(s)
    ensures forall e :: e in Elements(s) ==> CommaFree(e)
  {
    assert !IsAsciiSpace(',');
    hide IsAsciiSpace;
    hide IsSpace;
    if s == "" {
    } else {
      hide Elements;
      hide Join;
      ElementsJoined(s[1..]);
      ElementsStep(s);
      var es := Elements(s[1..]);
      assert es == [es[0]] + es[1..] && [""] + es == ["", es[0]] + es[1..];
      var x := if IsAsciiSpace(s[0]) then "" else [s[0]];
      JoinFirst(x, es[0], es[1..]);
      assert CommaFree(es[0]) && (s[0] != ',' ==> CommaFree(x + es[0]));
    }
  }

  lemma {:induction false} ElementsIgnoreSpace(a: string, c: char, b: string)
    requires IsAsciiSpace(c)
    ensures Elements(a + [c] + b) == Elements(a + b)
  {
    assert !IsAsciiSpace(',');
    hide IsAsciiSpace;
    hide Elements;
    if a == "" {
      ElementsStep([c] + b);
      var es := Elements(b);
      assert a + [c] + b == [c] + b && ([c] + b)[1..] == b && a + b == b;
      assert [es[0]] + es[1..] == es && "" + es[0] == es[0];
    } else {
      ElementsIgnoreSpace(a[1..], c, b);
      ElementsStep(a + [c] + b);
      ElementsStep(a + b);
      assert (a + [c] + b)[1..] == a[1..] + [c] + b && (a + b)[1..] == a[1..] + b;
    }
  }

  /** A space may be put in or left out anywhere in a field value, inside an option too. */
  lemma ScanIgnoresSpace(a: string, c: char, b: string)
    requires c in {' ', '\t', '\n', '\U{000B}', '\U{000C}', '\r'}
    ensures Scan(a + [c] + b) == Scan(a + b)
  {
    ElementsIgnoreSpace(a, c, b);
    ScanIsDeclarative(a + [c] + b);
    ScanIsDeclarative(a + b);
  }

  /** A string of any other characters but the comma is one option, as it stands. */
  lemma ScanOption(o: string)
    requires o != "" && forall i :: 0 <= i < |o| ==> o[i] !in {',', ' ', '\t', '\n', '\U{000B}', '\U{000C}', '\r'}
    ensures Scan(o) == [o]
  {
    var p := Padded("", o, "");
    assert p.Text() == o && [p][1..] == [];
    assert Options([p]) == [p.option] + Options([]) && Texts([p]) == [p.Text()] + Texts([]);
    assert [] + Texts([p]) + [] == [o] && Join([o]) == o;
    hide Scan;
    ScanPrinted([], [p], []);
  }

  /** Two options, with a blank behind the comma. */
  lemma ScanTwo(o: string, p: string)
    requires IsOption(o) && IsOption(p)
    ensures Scan(o + ", " + p) == [o, p]
  {
    var first, second := Padded("", o, ""), Padded(" ", p, "");
    var both := [first, second];
    assert first.Text() == o && second.Text() == " " + p;
    assert both[1..] == [second] && [second][1..] == [];
    assert Options([second]) == [p] + Options([]) && Texts([second]) == [" " + p] + Texts([]);
    assert Options(both) == [o] + Options([second]) && Texts(both) == [o] + Texts([second]);
    var ps := [o, " " + p];
    assert [] + Texts(both) + [] == ps && ps[1..] == [" " + p];
    assert Join(ps[1..]) == " " + p && Join(ps) == o + "," + (" " + p) == o + ", " + p;
    hide Scan;
    ScanPrinted([], both, []);
  }

  lemma ScanAfterBlank()
    ensures Scan("a, b") == ["a", "b"]
  {
    ScanTwo("a", "b");
    assert "a" + ", " + "b" == "a, b";
  }
}
