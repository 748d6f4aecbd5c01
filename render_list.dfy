/**
 * `render_list` of src/html_renderer.rs: flat items, each with a nesting
 * level, become nested lists. A stack holds the text of every list still
 * open; going deeper pushes empty entries, going back up wraps the top entry
 * in the list tags and appends it to the entry below.
 *
 * The output is specified as a sequence of tokens (open a list, close a
 * list, an item) that the stack writes out in order.
 */
module RenderList {
  import opened Wrappers
  import opened Strings
  import opened Ast
  import opened InlineHtml

  datatype ListToken = Open | Close | Item(item: ListItem)

  /** Every item has a level of at least 1: an item at level 0 empties the stack, and the source panics. */
  predicate Leveled(items: seq<ListItem>)
  {
    forall i :: 0 <= i < |items| ==> items[i].level >= 1
  }

  /** One item: `<li>`, its rendered text, `</li>` and a newline. */
  function ItemHtml(item: ListItem): string
  {
    "<li>" + RenderInlines(item.text) + "</li>\n"
  }

  /** `n` copies of a token. */
  function Run(t: ListToken, n: nat): (r: seq<ListToken>)
    ensures |r| == n
  {
    if n == 0 then [] else Run(t, n - 1) + [t]
  }

  lemma {:induction false} RunPrefix(t: ListToken, n: nat, k: nat)
    requires k <= n
    ensures Run(t, n)[..k] == Run(t, k)
    decreases n
  {
    if k < n {
      RunPrefix(t, n - 1, k);
      assert Run(t, n)[..k] == Run(t, n - 1)[..k];
    }
  }

  /** The tokens that take the nesting from depth `from` to depth `level`. */
  function Transition(from: nat, level: nat): seq<ListToken>
  {
    if level > from then Run(Open, level - from) else Run(Close, from - level)
  }

  /** The depth after the items, starting at depth `d`. */
  function LastLevel(items: seq<ListItem>, d: nat): nat
  {
    if items == [] then d else items[|items| - 1].level
  }

  /** The tokens of the items: before each item, the transition to its level. */
  function StepTokens(items: seq<ListItem>, d: nat): seq<ListToken>
  {
    if items == [] then []
    else
      var front := items[..|items| - 1];
      var item := items[|items| - 1];
      StepTokens(front, d) + Transition(LastLevel(front, d), item.level) + [Item(item)]
  }

  /** All tokens of a list: the items' tokens, then the lists still open are closed. */
  function ListTokens(items: seq<ListItem>): seq<ListToken>
    requires Leveled(items)
  {
    StepTokens(items, 1) + Run(Close, LastLevel(items, 1) - 1)
  }

  /** How a token is written: a list's opening tag, its closing tag and a newline, or the item. */
  function TokenHtml(t: ListToken, openTag: string, closeTag: string): string
  {
    match t
    case Open => openTag
    case Close => closeTag + "\n"
    case Item(item) => ItemHtml(item)
  }

  function TokensHtml(ts: seq<ListToken>, openTag: string, closeTag: string): string
  {
    if ts == [] then "" else TokensHtml(ts[..|ts| - 1], openTag, closeTag) + TokenHtml(ts[|ts| - 1], openTag, closeTag)
  }

  /** The whole list: the outer tags around the tokens, each followed by a newline. */
  function ListHtml(items: seq<ListItem>, openTag: string, closeTag: string): string
    requires Leveled(items)
  {
    openTag + "\n" + TokensHtml(ListTokens(items), openTag, closeTag) + closeTag + "\n"
  }

  lemma {:induction false} TokensHtmlAppend(a: seq<ListToken>, b: seq<ListToken>, openTag: string, closeTag: string)
    ensures TokensHtml(a + b, openTag, closeTag) == TokensHtml(a, openTag, closeTag) + TokensHtml(b, openTag, closeTag)
    decreases |b|
  {
    if b == [] {
      assert a + b == a;
    } else {
      var front := b[..|b| - 1];
      assert (a + b)[..|a + b| - 1] == a + front;
      TokensHtmlAppend(a, front, openTag, closeTag);
      AppendAssoc(TokensHtml(a, openTag, closeTag), TokensHtml(front, openTag, closeTag), TokenHtml(b[|b| - 1], openTag, closeTag));
    }
  }

  // ---- Balance and nesting ------------------------------------------------------

  /** The number of lists opened minus the number closed. */
  function Depth(ts: seq<ListToken>): int
  {
    if ts == [] then 0
    else Depth(ts[..|ts| - 1]) + (match ts[|ts| - 1] case Open => 1 case Close => -1 case Item(_) => 0)
  }

  lemma {:induction false} DepthAppend(a: seq<ListToken>, b: seq<ListToken>)
    ensures Depth(a + b) == Depth(a) + Depth(b)
    decreases |b|
  {
    if b == [] {
      assert a + b == a;
    } else {
      assert (a + b)[..|a + b| - 1] == a + b[..|b| - 1];
      DepthAppend(a, b[..|b| - 1]);
    }
  }

  lemma {:induction false} DepthRun(t: ListToken, n: nat)
    requires !t.Item?
    ensures Depth(Run(t, n)) == if t.Open? then n as int else -(n as int)
  {
    if n > 0 {
      assert Run(t, n)[..n - 1] == Run(t, n - 1);
      DepthRun(t, n - 1);
    }
  }

  lemma {:induction false} TransitionDepth(from: nat, level: nat)
    ensures Depth(Transition(from, level)) == level - from
  {
    if level > from {
      DepthRun(Open, level - from);
    } else {
      DepthRun(Close, from - level);
    }
  }

  /** The items' tokens take the depth from `d` to the last item's level. */
  lemma {:induction false} StepTokensDepth(items: seq<ListItem>, d: nat)
    ensures Depth(StepTokens(items, d)) == LastLevel(items, d) - d
  {
    if items != [] {
      var front := items[..|items| - 1];
      var item := items[|items| - 1];
      StepTokensDepth(front, d);
      TransitionDepth(LastLevel(front, d), item.level);
      DepthAppend(StepTokens(front, d), Transition(LastLevel(front, d), item.level));
      DepthAppend(StepTokens(front, d) + Transition(LastLevel(front, d), item.level), [Item(item)]);
      assert Depth([Item(item)]) == 0 by {
        assert [Item(item)][..0] == [];
      }
    }
  }

  /** Starting from depth `base`, no prefix of the tokens closes more lists than are open. */
  predicate Nested(ts: seq<ListToken>, base: int)
  {
    forall k :: 0 <= k <= |ts| ==> base + Depth(ts[..k]) >= 1
  }

  lemma {:induction false} NestedAppend(a: seq<ListToken>, b: seq<ListToken>, base: int)
    requires Nested(a, base) && Nested(b, base + Depth(a))
    ensures Nested(a + b, base)
  {
    forall k | 0 <= k <= |a + b| ensures base + Depth((a + b)[..k]) >= 1 {
      if k <= |a| {
        assert (a + b)[..k] == a[..k];
      } else {
        assert (a + b)[..k] == a + b[..k - |a|];
        DepthAppend(a, b[..k - |a|]);
      }
    }
  }

  lemma {:induction false} NestedRun(t: ListToken, n: nat, base: int)
    requires !t.Item? && base >= 1 && (t.Close? ==> base - n >= 1)
    ensures Nested(Run(t, n), base)
  {
    forall k | 0 <= k <= n ensures base + Depth(Run(t, n)[..k]) >= 1 {
      RunPrefix(t, n, k);
      DepthRun(t, k);
    }
  }

  /** The items' tokens never close the list they start in, when every level is at least 1. */
  lemma {:induction false} StepTokensNested(items: seq<ListItem>, d: nat)
    requires Leveled(items) && d >= 1
    ensures Nested(StepTokens(items, d), d)
  {
    if items == [] {
      assert StepTokens(items, d)[..0] == [];
    } else {
      var front := items[..|items| - 1];
      var item := items[|items| - 1];
      var steps := StepTokens(front, d);
      var last := LastLevel(front, d);
      var tr := Transition(last, item.level);
      StepTokensNested(front, d);
      StepTokensDepth(front, d);
      assert last >= 1;
      if item.level > last {
        NestedRun(Open, item.level - last, last);
      } else {
        NestedRun(Close, last - item.level, last);
      }
      NestedAppend(steps, tr, d);
      TransitionDepth(last, item.level);
      DepthAppend(steps, tr);
      var single := [Item(item)];
      assert Nested(single, item.level) by {
        assert single[..0] == [] && single[..1] == single;
        assert Depth(single) == 0 by {
          assert single[..0] == [];
        }
      }
      NestedAppend(steps + tr, single, d);
    }
  }

  lemma LastLevelPositive(items: seq<ListItem>)
    requires Leveled(items)
    ensures LastLevel(items, 1) >= 1
  {
    if items != [] {
      assert items[|items| - 1].level >= 1;
    }
  }

  /** Closing every list opened since depth 1 brings the depth back to 0. */
  lemma CloseAllDepth(steps: seq<ListToken>, last: nat)
    requires last >= 1 && Depth(steps) == last - 1
    ensures Depth(steps + Run(Close, last - 1)) == 0
  {
    DepthRun(Close, last - 1);
    DepthAppend(steps, Run(Close, last - 1));
  }

  /** Closing every list opened since depth 1 never closes the outer list. */
  lemma CloseAllNested(steps: seq<ListToken>, last: nat)
    requires last >= 1 && Depth(steps) == last - 1 && Nested(steps, 1)
    ensures Nested(steps + Run(Close, last - 1), 1)
  {
    NestedRun(Close, last - 1, last);
    NestedAppend(steps, Run(Close, last - 1), 1);
  }

  lemma {:induction false} ListTokensDepth(items: seq<ListItem>)
    requires Leveled(items)
    ensures Depth(ListTokens(items)) == 0
  {
    LastLevelPositive(items);
    StepTokensDepth(items, 1);
    CloseAllDepth(StepTokens(items, 1), LastLevel(items, 1));
  }

  lemma {:induction false} ListTokensNested(items: seq<ListItem>)
    requires Leveled(items)
    ensures Nested(ListTokens(items), 1)
  {
    LastLevelPositive(items);
    StepTokensDepth(items, 1);
    StepTokensNested(items, 1);
    CloseAllNested(StepTokens(items, 1), LastLevel(items, 1));
  }

  /**
   * The tags of a list are balanced and properly nested: as many lists are
   * closed as opened, and no prefix closes more than it opened.
   */
  lemma {:induction false} ListTokensBalanced(items: seq<ListItem>)
    requires Leveled(items)
    ensures Depth(ListTokens(items)) == 0
    ensures Nested(ListTokens(items), 1)
  {
    ListTokensDepth(items);
    ListTokensNested(items);
  }

  // ---- The items, in order ----------------------------------------------------

  /** The items among the tokens, in order. */
  function ItemsOf(ts: seq<ListToken>): seq<ListItem>
  {
    if ts == [] then []
    else ItemsOf(ts[..|ts| - 1]) + (if ts[|ts| - 1].Item? then [ts[|ts| - 1].item] else [])
  }

  lemma {:induction false} ItemsOfAppend(a: seq<ListToken>, b: seq<ListToken>)
    ensures ItemsOf(a + b) == ItemsOf(a) + ItemsOf(b)
    decreases |b|
  {
    if b == [] {
      assert a + b == a;
    } else {
      assert (a + b)[..|a + b| - 1] == a + b[..|b| - 1];
      ItemsOfAppend(a, b[..|b| - 1]);
    }
  }

  lemma {:induction false} ItemsOfRun(t: ListToken, n: nat)
    requires !t.Item?
    ensures ItemsOf(Run(t, n)) == []
  {
    if n > 0 {
      assert Run(t, n)[..n - 1] == Run(t, n - 1);
      ItemsOfRun(t, n - 1);
    }
  }

  /** The items' tokens hold exactly one `<li>` per item, in input order. */
  lemma {:induction false} StepTokensItems(items: seq<ListItem>, d: nat)
    ensures ItemsOf(StepTokens(items, d)) == items
  {
    if items != [] {
      var front := items[..|items| - 1];
      var item := items[|items| - 1];
      var last := LastLevel(front, d);
      StepTokensItems(front, d);
      if item.level > last {
        ItemsOfRun(Open, item.level - last);
      } else {
        ItemsOfRun(Close, last - item.level);
      }
      ItemsOfAppend(StepTokens(front, d), Transition(last, item.level));
      ItemsOfAppend(StepTokens(front, d) + Transition(last, item.level), [Item(item)]);
      assert ItemsOf([Item(item)]) == [item] by {
        assert [Item(item)][..0] == [];
      }
      assert items == front + [item];
    }
  }

  /** A whole list holds exactly one `<li>` per item, in input order. */
  lemma {:induction false} ListTokensItems(items: seq<ListItem>)
    requires Leveled(items)
    ensures ItemsOf(ListTokens(items)) == items
  {
    StepTokensItems(items, 1);
    ItemsOfRun(Close, LastLevel(items, 1) - 1);
    ItemsOfAppend(StepTokens(items, 1), Run(Close, LastLevel(items, 1) - 1));
  }

  // ---- The stack ------------------------------------------------------------------

  /**
   * What the stack will write out: the text of each open list, with the
   * opening tag of every inner list before its text.
   */
  function Flatten(stack: seq<string>, openTag: string): string
    requires |stack| >= 1
  {
    if |stack| == 1 then stack[0] else Flatten(stack[..|stack| - 1], openTag) + openTag + stack[|stack| - 1]
  }

  /** Pushing an empty entry writes an opening tag. */
  lemma {:induction false} FlattenPush(stack: seq<string>, openTag: string)
    requires |stack| >= 1
    ensures Flatten(stack + [""], openTag) == Flatten(stack, openTag) + openTag
  {
    assert (stack + [""])[..|stack|] == stack;
  }

  /** Wrapping the top entry into the one below writes a closing tag and a newline. */
  lemma {:induction false} FlattenPop(stack: seq<string>, openTag: string, closeTag: string)
    requires |stack| >= 2
    ensures var n := |stack|;
      Flatten(stack[..n - 2] + [stack[n - 2] + openTag + stack[n - 1] + closeTag + "\n"], openTag)
      == Flatten(stack, openTag) + closeTag + "\n"
  {
    var n := |stack|;
    var popped := stack[..n - 2] + [stack[n - 2] + openTag + stack[n - 1] + closeTag + "\n"];
    assert stack[..n - 1][..n - 2] == stack[..n - 2];
    if n > 2 {
      assert popped[..n - 2] == stack[..n - 2];
    }
  }

  /** Appending to the top entry writes the text at the end. */
  lemma {:induction false} FlattenAppendTop(stack: seq<string>, openTag: string, text: string)
    requires |stack| >= 1
    ensures var n := |stack|;
      Flatten(stack[..n - 1] + [stack[n - 1] + text], openTag) == Flatten(stack, openTag) + text
  {
    var n := |stack|;
    if n > 1 {
      assert (stack[..n - 1] + [stack[n - 1] + text])[..n - 1] == stack[..n - 1];
    }
  }

  /** `n` copies of a text. */
  function Repeat(text: string, n: nat): string
  {
    if n == 0 then "" else Repeat(text, n - 1) + text
  }

  /** A run of one kind of tag token writes that tag `n` times. */
  lemma {:induction false} TokensHtmlRun(t: ListToken, n: nat, openTag: string, closeTag: string)
    requires !t.Item?
    ensures TokensHtml(Run(t, n), openTag, closeTag) == Repeat(TokenHtml(t, openTag, closeTag), n)
  {
    if n > 0 {
      assert Run(t, n)[..n - 1] == Run(t, n - 1);
      TokensHtmlRun(t, n - 1, openTag, closeTag);
    }
  }

  /** The text of a transition: an opening tag per level deeper, a closing tag and a newline per level back up. */
  lemma {:induction false} TransitionHtml(from: nat, level: nat, openTag: string, closeTag: string)
    ensures TokensHtml(Transition(from, level), openTag, closeTag)
      == if level > from then Repeat(openTag, level - from) else Repeat(closeTag + "\n", from - level)
  {
    if level > from {
      TokensHtmlRun(Open, level - from, openTag, closeTag);
    } else {
      TokensHtmlRun(Close, from - level, openTag, closeTag);
    }
  }

  /** An item token writes the item's `<li>`. */
  lemma {:induction false} TokensHtmlItem(ts: seq<ListToken>, item: ListItem, openTag: string, closeTag: string)
    ensures TokensHtml(ts + [Item(item)], openTag, closeTag) == TokensHtml(ts, openTag, closeTag) + ItemHtml(item)
  {
    assert (ts + [Item(item)])[..|ts|] == ts;
  }

  /** The loop of `render_list` that pushes an empty entry for every level deeper. */
  method Deepen(stack: seq<string>, level: nat, openTag: string) returns (st: seq<string>)
    requires |stack| >= 1
    ensures |st| == if level > |stack| then level else |stack|
    ensures Flatten(st, openTag) == Flatten(stack, openTag) + Repeat(openTag, |st| - |stack|)
  {
    st := stack;
    while |st| < level
      invariant |stack| <= |st| && (|st| > |stack| ==> |st| <= level)
      invariant Flatten(st, openTag) == Flatten(stack, openTag) + Repeat(openTag, |st| - |stack|)
    {
      FlattenPush(st, openTag);
      AppendAssoc(Flatten(stack, openTag), Repeat(openTag, |st| - |stack|), openTag);
      st := st + [""];
    }
  }

  /** The loop of `render_list` that wraps the top entry into the one below until `level` entries are left. */
  method Shallow(stack: seq<string>, level: nat, openTag: string, closeTag: string) returns (st: seq<string>)
    requires |stack| >= 1 && level >= 1
    ensures |st| == if level < |stack| then level else |stack|
    ensures Flatten(st, openTag) == Flatten(stack, openTag) + Repeat(closeTag + "\n", |stack| - |st|)
  {
    st := stack;
    while |st| > level
      invariant 1 <= |st| <= |stack| && (|st| < |stack| ==> level <= |st|)
      invariant Flatten(st, openTag) == Flatten(stack, openTag) + Repeat(closeTag + "\n", |stack| - |st|)
    {
      var n := |st|;
      FlattenPop(st, openTag, closeTag);
      AppendAssoc(Flatten(stack, openTag), Repeat(closeTag + "\n", |stack| - n), closeTag + "\n");
      st := st[..n - 2] + [st[n - 2] + openTag + st[n - 1] + closeTag + "\n"];
    }
  }

  /** Moving the stack to the level of the next item writes the transition's tokens. */
  method Realign(stack: seq<string>, level: nat, openTag: string, closeTag: string) returns (st: seq<string>)
    requires |stack| >= 1 && level >= 1
    ensures |st| == level
    ensures Flatten(st, openTag) == Flatten(stack, openTag) + TokensHtml(Transition(|stack|, level), openTag, closeTag)
  {
    var deeper := Deepen(stack, level, openTag);
    st := Shallow(deeper, level, openTag, closeTag);
    TransitionHtml(|stack|, level, openTag, closeTag);
    if level > |stack| {
      AppendEmpty(Flatten(deeper, openTag));
    } else {
      AppendEmpty(Flatten(stack, openTag));
    }
  }

  /** One more item adds its transition and its `<li>` to the text. */
  lemma {:induction false} StepTokensHtmlSnoc(items: seq<ListItem>, i: nat, openTag: string, closeTag: string)
    requires i < |items|
    ensures LastLevel(items[..i + 1], 1) == items[i].level
    ensures TokensHtml(StepTokens(items[..i + 1], 1), openTag, closeTag)
      == TokensHtml(StepTokens(items[..i], 1), openTag, closeTag)
       + TokensHtml(Transition(LastLevel(items[..i], 1), items[i].level) + [Item(items[i])], openTag, closeTag)
  {
    var front := items[..i + 1];
    assert front[..i] == items[..i];
    assert front[i] == items[i];
    var tail := Transition(LastLevel(items[..i], 1), items[i].level) + [Item(items[i])];
    assert StepTokens(front, 1) == StepTokens(items[..i], 1) + tail;
    TokensHtmlAppend(StepTokens(items[..i], 1), tail, openTag, closeTag);
  }

  /**
   * The whole list: the outer tags around the items' text, followed by a
   * closing tag for every list still open below the outer one.
   */
  lemma {:induction false} ListHtmlSplit(items: seq<ListItem>, openTag: string, closeTag: string, text: string)
    requires Leveled(items)
    requires LastLevel(items, 1) >= 1
    requires text == TokensHtml(StepTokens(items, 1), openTag, closeTag) + Repeat(closeTag + "\n", LastLevel(items, 1) - 1)
    ensures ListHtml(items, openTag, closeTag) == openTag + "\n" + text + closeTag + "\n"
  {
    var closes := Run(Close, LastLevel(items, 1) - 1);
    TokensHtmlRun(Close, LastLevel(items, 1) - 1, openTag, closeTag);
    TokensHtmlAppend(StepTokens(items, 1), closes, openTag, closeTag);
  }

  /** The stack left after the item loop, wrapped down to one entry, writes the whole list. */
  lemma {:induction false} FinishList(items: seq<ListItem>, openTag: string, closeTag: string, stack: seq<string>, st: seq<string>)
    requires Leveled(items)
    requires |stack| == LastLevel(items, 1) && |stack| >= 1
    requires Flatten(stack, openTag) == TokensHtml(StepTokens(items, 1), openTag, closeTag)
    requires |st| == 1 && Flatten(st, openTag) == Flatten(stack, openTag) + Repeat(closeTag + "\n", |stack| - |st|)
    ensures ListHtml(items, openTag, closeTag) == openTag + "\n" + st[0] + closeTag + "\n"
  {
    ListHtmlSplit(items, openTag, closeTag, st[0]);
  }

  /** One pass of the item loop of `render_list`: realign the stack, then append the item to the top entry. */
  method AddItem(stack: seq<string>, item: ListItem, openTag: string, closeTag: string) returns (st: seq<string>)
    requires |stack| >= 1 && item.level >= 1
    ensures |st| == item.level
    ensures Flatten(st, openTag)
      == Flatten(stack, openTag) + TokensHtml(Transition(|stack|, item.level) + [Item(item)], openTag, closeTag)
  {
    var aligned := Realign(stack, item.level, openTag, closeTag);
    var li := ItemHtml(item);
    FlattenAppendTop(aligned, openTag, li);
    st := aligned[..|aligned| - 1] + [aligned[|aligned| - 1] + li];
    TokensHtmlItem(Transition(|stack|, item.level), item, openTag, closeTag);
    AppendAssoc(Flatten(stack, openTag), TokensHtml(Transition(|stack|, item.level), openTag, closeTag), li);
  }

  /** The item loop of `render_list`: the stack holds the items' text, one entry per open list. */
  method RenderItems(items: seq<ListItem>, openTag: string, closeTag: string) returns (levelStack: seq<string>)
    requires Leveled(items)
    ensures |levelStack| == LastLevel(items, 1) && |levelStack| >= 1
    ensures Flatten(levelStack, openTag) == TokensHtml(StepTokens(items, 1), openTag, closeTag)
  {
    levelStack := [""];
    for i := 0 to |items|
      invariant |levelStack| == LastLevel(items[..i], 1) && |levelStack| >= 1
      invariant Flatten(levelStack, openTag) == TokensHtml(StepTokens(items[..i], 1), openTag, closeTag)
    {
      levelStack := AddItem(levelStack, items[i], openTag, closeTag);
      StepTokensHtmlSnoc(items, i, openTag, closeTag);
    }
    assert items[..|items|] == items;
  }

  /**
   * `render_list`: the outer tags around the nested lists and their items.
   * The text is the token sequence `ListTokens` written out, so the tags are
   * balanced and the items appear once each, in order (`ListTokensBalanced`,
   * `ListTokensItems`).
   */
  method RenderList(items: seq<ListItem>, openTag: string, closeTag: string) returns (html: string)
    requires Leveled(items)
    ensures html == ListHtml(items, openTag, closeTag)
  {
    var levelStack := RenderItems(items, openTag, closeTag);
    var closed := Shallow(levelStack, 1, openTag, closeTag);
    FinishList(items, openTag, closeTag, levelStack, closed);
    html := openTag + "\n" + closed[0] + closeTag + "\n";
  }

  // ---- Level-0 items ------------------------------------------------------------

  /**
   * The pop loop of `render_list` as written, from a stack of `depth` entries
   * down to `level`. Each pop appends the popped text to the entry below it
   * through `last_mut().unwrap()`, which aborts when no entry is left: None
   * is that abort.
   */
  function PopAsWritten(depth: nat, level: nat): (r: Option<nat>)
    requires depth >= 1
    ensures r.None? <==> depth > level && level == 0
    ensures r.Some? ==> r.value == (if depth <= level then depth else level)
    decreases depth
  {
    if depth <= level then Some(depth)
    else if depth - 1 == 0 then None
    else PopAsWritten(depth - 1, level)
  }

  /**
   * One pass of the item loop as written: push empty entries up to the
   * item's level, pop down to it, then append the `<li>` to the top entry.
   * The result is the new stack depth, or None when the pass aborts.
   */
  function ItemDepthAsWritten(depth: nat, level: nat): (r: Option<nat>)
    requires depth >= 1
    ensures r.None? <==> level == 0
    ensures r.Some? ==> r.value == level
  {
    var pushed := if depth < level then level else depth;
    PopAsWritten(pushed, level)
  }

  /**
   * The stack depth after the item loop of `render_list` as written, from a
   * stack of `depth` entries, or None when some pass aborts. The closing loop
   * that follows stops at one entry and never aborts.
   */
  function ListDepthAsWritten(items: seq<ListItem>, depth: nat): Option<nat>
    requires depth >= 1
  {
    if items == [] then Some(depth)
    else match ItemDepthAsWritten(depth, items[0].level)
      case None => None
      case Some(d) => ListDepthAsWritten(items[1..], d)
  }

  /** The list as written aborts exactly when some item has level 0. */
  lemma {:induction false} ListAbortsIffLevelZero(items: seq<ListItem>, depth: nat)
    requires depth >= 1
    ensures ListDepthAsWritten(items, depth).None? <==> !Leveled(items)
  {
    if items != [] {
      if items[0].level >= 1 {
        ListAbortsIffLevelZero(items[1..], items[0].level);
        if !Leveled(items[1..]) {
          var i :| 0 <= i < |items[1..]| && items[1..][i].level < 1;
          assert items[i + 1].level < 1;
        }
        if !Leveled(items) {
          var i :| 0 <= i < |items| && items[i].level < 1;
          assert items[1..][i - 1].level < 1;
        }
      }
    }
  }

  /** An item of level 0 after one of level 1, as the parser reads "1. a" then "0. b", aborts the page. */
  lemma LevelZeroAborts(a: seq<InlineElement>, b: seq<InlineElement>)
    ensures ListDepthAsWritten([ListItem(1, a), ListItem(0, b)], 1) == None
  {
    assert [ListItem(1, a), ListItem(0, b)][1..] == [ListItem(0, b)];
  }

  /** The corrected levels: a level-0 item is written at the top level, every other level is kept. */
  function ClampLevels(items: seq<ListItem>): (r: seq<ListItem>)
    ensures |r| == |items| && Leveled(r)
    ensures forall i :: 0 <= i < |r| ==> r[i].text == items[i].text
    ensures forall i :: 0 <= i < |r| ==> r[i].level == if items[i].level == 0 then 1 else items[i].level
  {
    seq(|items|, i requires 0 <= i < |items| =>
      ListItem(if items[i].level == 0 then 1 else items[i].level, items[i].text))
  }

  /**
   * With corrected levels no item aborts, the lists are balanced and properly
   * nested, every item is written once in order, and a list the source writes
   * without aborting is written unchanged.
   */
  lemma ClampedListComplete(items: seq<ListItem>)
    ensures ListDepthAsWritten(ClampLevels(items), 1).Some?
    ensures Depth(ListTokens(ClampLevels(items))) == 0 && Nested(ListTokens(ClampLevels(items)), 1)
    ensures ItemsOf(ListTokens(ClampLevels(items))) == ClampLevels(items)
    ensures ListDepthAsWritten(items, 1).Some? ==> ClampLevels(items) == items
  {
    var r := ClampLevels(items);
    ListAbortsIffLevelZero(r, 1);
    ListAbortsIffLevelZero(items, 1);
    ListTokensBalanced(r);
    ListTokensItems(r);
    if Leveled(items) {
      assert forall i :: 0 <= i < |items| ==> r[i] == items[i];
    }
  }

  /** `render_list` with the corrected levels: any items, no abort. */
  method RenderListClamped(items: seq<ListItem>, openTag: string, closeTag: string) returns (html: string)
    ensures html == ListHtml(ClampLevels(items), openTag, closeTag)
  {
    html := RenderList(ClampLevels(items), openTag, closeTag);
  }
}
