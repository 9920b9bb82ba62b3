/**
 * What the grammar promises: parsing the printed form of a well-formed tree
 * gives the tree back, at every precedence level, and the consequences the
 * parser tests in crates/cl0_parser/tests/parser spell out (collapsing of
 * one-element groups, trailing separators, precedence, rejected inputs).
 */
module GrammarFacts {
  import opened Wrappers
  import opened Tokens
  import opened Ast
  import opened Grammar
  import opened Printer

  /** `t` occurs in `toks` starting at `pos`. */
  predicate Has(toks: seq<Token>, pos: nat, t: seq<Token>)
  {
    pos + |t| <= |toks| && HasFrom(toks, pos, t)
  }

  /** Token by token: the first token of `t` at `pos`, the rest after it. */
  predicate HasFrom(toks: seq<Token>, pos: nat, t: seq<Token>)
    decreases |t|
  {
    |t| == 0 || (pos < |toks| && toks[pos] == t[0] && HasFrom(toks, pos + 1, t[1..]))
  }

  lemma {:induction false} HasSplit(toks: seq<Token>, pos: nat, a: seq<Token>, b: seq<Token>)
    requires Has(toks, pos, a + b)
    ensures Has(toks, pos, a) && Has(toks, pos + |a|, b)
    decreases |a|
  {
    if |a| == 0 {
      assert a + b == b;
    } else {
      assert (a + b)[0] == a[0];
      assert (a + b)[1..] == a[1..] + b;
      HasSplit(toks, pos + 1, a[1..], b);
    }
  }

  lemma HasHead(toks: seq<Token>, pos: nat, t: Token, b: seq<Token>)
    requires Has(toks, pos, [t] + b)
    ensures Grammar.At(toks, pos, t) && Has(toks, pos + 1, b)
  {
    HasSplit(toks, pos, [t], b);
    assert toks[pos + 0] == [t][0];
  }

  lemma HasLast(toks: seq<Token>, pos: nat, a: seq<Token>, t: Token)
    requires Has(toks, pos, a + [t])
    ensures Has(toks, pos, a) && Grammar.At(toks, pos + |a|, t)
  {
    HasSplit(toks, pos, a, [t]);
    assert toks[pos + |a| + 0] == [t][0];
  }

  lemma HasFirst(toks: seq<Token>, pos: nat, t: seq<Token>)
    requires Has(toks, pos, t) && |t| > 0
    ensures Grammar.At(toks, pos, t[0])
  {
    assert toks[pos + 0] == t[0];
  }

  /** The pieces of a `sep x rest` stretch. */
  lemma HasStep(toks: seq<Token>, pos: nat, sep: Token, x: seq<Token>, rest: seq<Token>)
    requires Has(toks, pos, [sep] + x + rest)
    ensures Grammar.At(toks, pos, sep) && Has(toks, pos + 1, x) && Has(toks, pos + 1 + |x|, rest)
    ensures |rest| > 0 ==> Grammar.At(toks, pos + 1 + |x|, rest[0])
  {
    HasSplit(toks, pos, [sep] + x, rest);
    HasHead(toks, pos, sep, x);
    if |rest| > 0 {
      HasFirst(toks, pos + 1 + |x|, rest);
    }
  }

  lemma {:induction false} HasSuffix(toks: seq<Token>, k: nat)
    requires k <= |toks|
    ensures HasFrom(toks, k, toks[k..])
    decreases |toks| - k
  {
    if k < |toks| {
      assert toks[k..][1..] == toks[k + 1..];
      HasSuffix(toks, k + 1);
    }
  }

  lemma HasWhole(toks: seq<Token>)
    ensures Has(toks, 0, toks)
  {
    HasSuffix(toks, 0);
    assert toks[0..] == toks;
  }

  lemma TakeAll<T>(s: seq<T>)
    ensures s[..|s|] == s
  {
  }

  lemma TakeOne<T>(s: seq<T>)
    requires |s| > 0
    ensures s[..1] == [s[0]]
  {
  }

  lemma SnocSlice<T>(s: seq<T>, i: nat)
    requires i < |s|
    ensures s[..i] + [s[i]] == s[..i + 1]
  {
  }

  // ---------------------------------------------------------------- actions

  /** The lowest level a token separates, 3 for a token that separates nothing. */
  function SeparatorRank(t: Token): (r: nat)
    ensures r <= 3
  {
    if t == Comma || t == Par then ParallelLevel
    else if t == Alt then AlternativeLevel
    else if t == Semicolon || t == Seq then SequenceLevel
    else 3
  }

  /** What may follow a group of `level` without extending it. */
  predicate GroupFollow(level: nat, toks: seq<Token>, p: nat)
  {
    p < |toks| ==> SeparatorRank(toks[p]) > level
  }

  /** What may follow an item of `level` without extending it. */
  predicate ItemFollow(level: nat, toks: seq<Token>, p: nat)
  {
    p < |toks| ==> SeparatorRank(toks[p]) >= level
  }

  lemma EventPrinted(toks: seq<Token>, pos: nat, e: PrimitiveEvent)
    requires EventWF(e) && Has(toks, pos, PrintEvent(e))
    ensures ParsePrimitiveEvent(toks, pos) == Done(e, pos + 2)
  {
    var t := PrintEvent(e);
    assert t == [t[0]] + [t[1]];
    HasHead(toks, pos, t[0], [t[1]]);
    HasFirst(toks, pos + 1, [t[1]]);
  }

  /** The level whose lists have the kind of `l`. */
  function ListLevel(l: ActionList): nat
  {
    match l
    case Parallel(_) => ParallelLevel
    case Alternative(_) => AlternativeLevel
    case Sequence(_) => SequenceLevel
  }

  /** An item of a level is an event or a list of a lower level, never a list of that level. */
  lemma {:induction false} ItemNotGroup(a: Action, level: nat)
    requires level <= SequenceLevel && ItemWF(a, level)
    ensures a.Primitive? || ListLevel(a.list) < level
    ensures !(a.List? && a.list == ListOf(level, a.list.actions))
    decreases level
  {
    if level > 0 && ItemWF(a, level - 1) {
      ItemNotGroup(a, level - 1);
    }
  }

  /** The items a group reads back into: a list's items, or the item itself. */
  function GroupItems(level: nat, a: Action): seq<Action>
  {
    if a.List? && a.list == ListOf(level, a.list.actions) && |a.list.actions| > 0 then a.list.actions else [a]
  }

  lemma GroupItemsMake(level: nat, a: Action)
    requires level <= SequenceLevel && GroupWF(a, level)
    ensures |GroupItems(level, a)| > 0 && MakeGroup(level, GroupItems(level, a)) == a
  {
    if ItemWF(a, level) {
      ItemNotGroup(a, level);
    }
  }

  lemma GroupTailStep(toks: seq<Token>, pos: nat, level: nat, acc: seq<Action>, a: Action, n: nat)
    requires pos < |toks| && IsSeparator(level, toks[pos]) && ParseItem(toks, pos + 1, level) == Done(a, n)
    ensures GroupTail(toks, pos, level, acc) == GroupTail(toks, n, level, acc + [a])
  {
  }

  lemma ParseGroupStep(toks: seq<Token>, pos: nat, level: nat, a: Action, n: nat)
    requires ParseItem(toks, pos, level) == Done(a, n)
    ensures var t := GroupTail(toks, n, level, [a]);
      ParseGroup(toks, pos, level) == Done(MakeGroup(level, t.value), t.next)
  {
  }

  /** Where the pieces of one `separator item` step of a printed group sit. */
  lemma GroupRestSplit(toks: seq<Token>, pos: nat, items: seq<Action>, i: nat, level: nat, end: nat) returns (e: nat)
    requires i < |items| && level <= SequenceLevel
    requires Has(toks, pos, PrintGroupRest(items, i, level)) && end == pos + |PrintGroupRest(items, i, level)|
    requires ItemFollow(level, toks, end)
    ensures e == pos + 1 + |PrintItem(items[i], level)|
    ensures pos < |toks| && IsSeparator(level, toks[pos]) && Has(toks, pos + 1, PrintItem(items[i], level))
    ensures ItemFollow(level, toks, e) && Has(toks, e, PrintGroupRest(items, i + 1, level))
    ensures end == e + |PrintGroupRest(items, i + 1, level)|
  {
    e := pos + 1 + |PrintItem(items[i], level)|;
    var rest := PrintGroupRest(items, i + 1, level);
    HasStep(toks, pos, SeparatorToken(level), PrintItem(items[i], level), rest);
    if i + 1 < |items| {
      assert rest[0] == SeparatorToken(level);
    }
  }

  /** The printed items `i..` of a group, ending at `end`, are read into the accumulator. */
  lemma {:induction false} GroupRestPrinted(toks: seq<Token>, pos: nat, items: seq<Action>, i: nat, level: nat, end: nat)
    requires i <= |items| && level <= SequenceLevel
    requires forall k :: 0 <= k < |items| ==> ItemWF(items[k], level)
    requires Has(toks, pos, PrintGroupRest(items, i, level)) && end == pos + |PrintGroupRest(items, i, level)|
    requires ItemFollow(level, toks, end)
    ensures GroupTail(toks, pos, level, items[..i]) == GroupTail(toks, end, level, items)
    decreases level, 1, |items| - i
  {
    if i < |items| {
      var e := GroupRestSplit(toks, pos, items, i, level, end);
      ItemPrinted(toks, pos + 1, items[i], level);
      GroupTailStep(toks, pos, level, items[..i], items[i], e);
      SnocSlice(items, i);
      GroupRestPrinted(toks, e, items, i + 1, level, end);
    } else {
      assert PrintGroupRest(items, i, level) == [];
      TakeAll(items);
    }
  }

  /** An item followed by anything that does not continue it reads back as itself. */
  lemma {:induction false} ItemPrinted(toks: seq<Token>, pos: nat, a: Action, level: nat)
    requires level <= SequenceLevel && ItemWF(a, level) && Has(toks, pos, PrintItem(a, level))
    requires ItemFollow(level, toks, pos + |PrintItem(a, level)|)
    ensures ParseItem(toks, pos, level) == Done(a, pos + |PrintItem(a, level)|)
    decreases level, 0, 0
  {
    if level == 0 {
      EventPrinted(toks, pos, a.event);
    } else {
      GroupPrinted(toks, pos, a, level - 1);
    }
  }

  /** A group, read up to the point where its tail takes over. */
  lemma {:induction false} GroupPrintedThen(toks: seq<Token>, pos: nat, a: Action, level: nat)
    requires level <= SequenceLevel && GroupWF(a, level) && Has(toks, pos, PrintGroup(a, level))
    requires ItemFollow(level, toks, pos + |PrintGroup(a, level)|)
    ensures var t := GroupTail(toks, pos + |PrintGroup(a, level)|, level, GroupItems(level, a));
      ParseGroup(toks, pos, level) == Done(MakeGroup(level, t.value), t.next)
    decreases level, 3, 0
  {
    if ItemWF(a, level) {
      ItemNotGroup(a, level);
      assert PrintGroup(a, level) == PrintItem(a, level);
      ItemPrinted(toks, pos, a, level);
      ParseGroupStep(toks, pos, level, a, pos + |PrintItem(a, level)|);
    } else {
      GroupListPrinted(toks, pos, a, level);
    }
  }

  /** Where the first item and the rest of a printed list of the level's kind sit. */
  lemma GroupListSplit(toks: seq<Token>, pos: nat, a: Action, level: nat, end: nat) returns (e: nat)
    requires level <= SequenceLevel && GroupWF(a, level) && !ItemWF(a, level) && Has(toks, pos, PrintGroup(a, level))
    requires end == pos + |PrintGroup(a, level)| && ItemFollow(level, toks, end)
    ensures a.List? && |a.list.actions| >= 2 && GroupItems(level, a) == a.list.actions
    ensures forall k :: 0 <= k < |a.list.actions| ==> ItemWF(a.list.actions[k], level)
    ensures e == pos + |PrintItem(a.list.actions[0], level)|
    ensures Has(toks, pos, PrintItem(a.list.actions[0], level)) && ItemFollow(level, toks, e)
    ensures Has(toks, e, PrintGroupRest(a.list.actions, 1, level))
    ensures end == e + |PrintGroupRest(a.list.actions, 1, level)|
  {
    var items := a.list.actions;
    var first := PrintItem(items[0], level);
    var rest := PrintGroupRest(items, 1, level);
    e := pos + |first|;
    assert PrintGroup(a, level) == first + rest;
    HasSplit(toks, pos, first, rest);
    HasFirst(toks, e, rest);
    assert toks[e] == SeparatorToken(level);
  }

  /** A list of the level's kind: its first item, then the tail reads the rest. */
  lemma {:induction false} GroupListPrinted(toks: seq<Token>, pos: nat, a: Action, level: nat)
    requires level <= SequenceLevel && GroupWF(a, level) && !ItemWF(a, level) && Has(toks, pos, PrintGroup(a, level))
    requires ItemFollow(level, toks, pos + |PrintGroup(a, level)|)
    ensures var t := GroupTail(toks, pos + |PrintGroup(a, level)|, level, GroupItems(level, a));
      ParseGroup(toks, pos, level) == Done(MakeGroup(level, t.value), t.next)
    decreases level, 2, 0
  {
    var end := pos + |PrintGroup(a, level)|;
    var e := GroupListSplit(toks, pos, a, level, end);
    var items := a.list.actions;
    ItemPrinted(toks, pos, items[0], level);
    ParseGroupStep(toks, pos, level, items[0], e);
    TakeOne(items);
    GroupRestPrinted(toks, e, items, 1, level, end);
  }

  /** A group followed by anything that does not continue it reads back as itself. */
  lemma {:induction false} GroupPrinted(toks: seq<Token>, pos: nat, a: Action, level: nat)
    requires level <= SequenceLevel && GroupWF(a, level) && Has(toks, pos, PrintGroup(a, level))
    requires GroupFollow(level, toks, pos + |PrintGroup(a, level)|)
    ensures ParseGroup(toks, pos, level) == Done(a, pos + |PrintGroup(a, level)|)
    decreases level, 4, 0
  {
    GroupPrintedThen(toks, pos, a, level);
    GroupItemsMake(level, a);
  }

  lemma ActionPrinted(toks: seq<Token>, pos: nat, a: Action)
    requires ActionWF(a) && Has(toks, pos, PrintAction(a))
    requires GroupFollow(SequenceLevel, toks, pos + |PrintAction(a)|)
    ensures ParseAction(toks, pos) == Done(a, pos + |PrintAction(a)|)
  {
    GroupPrinted(toks, pos, a, SequenceLevel);
  }

  /** Round trip for a whole action. */
  lemma ActionRoundTrip(a: Action)
    requires ActionWF(a)
    ensures ActionOf(PrintAction(a)) == Some(a)
  {
    HasWhole(PrintAction(a));
    ActionPrinted(PrintAction(a), 0, a);
  }

  /** A trailing separator after a group is consumed and changes nothing. */
  lemma GroupTrailingSeparator(a: Action, level: nat)
    requires level <= SequenceLevel && GroupWF(a, level)
    ensures ActionOf(PrintGroup(a, level) + [SeparatorToken(level)]) == Some(a)
  {
    var toks := PrintGroup(a, level) + [SeparatorToken(level)];
    var n := |toks|;
    HasWhole(toks);
    HasLast(toks, 0, PrintGroup(a, level), SeparatorToken(level));
    GroupPrintedThen(toks, 0, a, level);
    GroupItemsMake(level, a);
    assert ParseGroup(toks, 0, level) == Done(a, n);
    TrailingUp(toks, a, level);
  }

  /** A group that ends the input reads back the same at every higher level. */
  lemma {:induction false} TrailingUp(toks: seq<Token>, a: Action, level: nat)
    requires level <= SequenceLevel && ParseGroup(toks, 0, level) == Done(a, |toks|)
    ensures ParseGroup(toks, 0, SequenceLevel) == Done(a, |toks|)
    decreases SequenceLevel - level
  {
    if level < SequenceLevel {
      assert ParseItem(toks, 0, level + 1) == Done(a, |toks|);
      assert GroupTail(toks, |toks|, level + 1, [a]) == Done([a], |toks|);
      TrailingUp(toks, a, level + 1);
    }
  }
}
