/** Template rendering: one in-place replacement pass per key, in whatever order the hash map yields its keys. */
module Template {

  type Values = map<string, string>

  /** boost::replace_all with a non-empty pattern: left to right, never looking into what it has inserted. */
  function ReplaceAll(text: string, pattern: string, value: string): string
    requires |pattern| > 0
  {
    if |text| == 0 then ""
    else if pattern <= text then value + ReplaceAll(text[|pattern|..], pattern, value)
    else [text[0]] + ReplaceAll(text[1..], pattern, value)
  }

  /** One pass: the key behind a dollar sign. */
  function Pass(text: string, key: string, values: Values): string
    requires key in values
  {
    ReplaceAll(text, "$" + key, values[key])
  }

  /** The passes in a given order. */
  function RenderInOrder(text: string, order: seq<string>, values: Values): string
    requires forall k :: k in order ==> k in values
  {
    if |order| == 0 then text
    else Pass(RenderInOrder(text, order[..|order| - 1], values), order[|order| - 1], values)
  }

  /** An order visits every key exactly once. */
  ghost predicate IsOrder(order: seq<string>, keys: set<string>) {
    && (forall k :: k in order <==> k in keys)
    && (forall i, j :: 0 <= i < j < |order| ==> order[i] != order[j])
  }

  class Template {
    var content: string

    constructor (content: string)
      ensures this.content == content
    {
      this.content := content;
    }

    /** The result is the one some order gives; nothing says which. */
    method Render(values: Values) returns (text: string)
      modifies this
      ensures text == content
      ensures exists order :: IsOrder(order, values.Keys) && text == RenderInOrder(old(content), order, values)
      ensures DollarFree(values) && Coherent(values) && Settled(old(content), values) ==>
              text == Substitute(old(content), values)
    {
      var left := values.Keys;
      ghost var order: seq<string> := [];
      while left != {}
        invariant left <= values.Keys && IsOrder(order, values.Keys - left)
        invariant content == RenderInOrder(old(content), order, values)
        decreases |left|
      {
        var k :| k in left;
        ghost var longer := order + [k];
        assert longer[..|order|] == order;
        content := ReplaceAll(content, "$" + k, values[k]);
        order := longer;
        left := left - {k};
      }
      assert IsOrder(order, values.Keys);
      if DollarFree(values) && Coherent(values) && Settled(old(content), values) {
        EveryOrderSubstitutes(old(content), order, values);
      }
      text := content;
    }
  }

  // ---------------------------------------------------------------- when the order does not matter

  ghost predicate DollarFree(values: Values) {
    forall k :: k in values ==> '$' !in k && '$' !in values[k]
  }

  /** Where k begins m: replacing the shorter key gives the same text as replacing the longer one. */
  ghost predicate Agreeing(values: Values, k: string, m: string)
    requires k in values && m in values && k <= m
  {
    values[m] == values[k] + m[|k|..]
  }

  ghost predicate Coherent(values: Values) {
    forall k, m {:trigger Agreeing(values, k, m)} :: k in values && m in values && k <= m ==> Agreeing(values, k, m)
  }

  /** In particular keys of which none begins another one are coherent, whatever their values. */
  lemma PrefixFreeIsCoherent(values: Values)
    requires forall k, m :: k in values && m in values && k <= m ==> k == m
    ensures Coherent(values)
  {
    forall k, m | k in values && m in values && k <= m ensures Agreeing(values, k, m) {
      assert m[|k|..] == "" && values[k] + "" == values[k];
    }
  }

  ghost predicate AnyStarts(text: string, keys: set<string>) {
    exists k :: k in keys && k <= text
  }

  /** Every dollar sign of the template starts a key. */
  ghost predicate Complete(text: string, keys: set<string>) {
    if |text| == 0 then true
    else (text[0] == '$' ==> AnyStarts(text[1..], keys)) && Complete(text[1..], keys)
  }

  ghost function KeyAt(text: string, keys: set<string>): (k: string)
    requires AnyStarts(text, keys)
    ensures k in keys && k <= text
  {
    var k :| k in keys && k <= text; k
  }

  /** The reference: one simultaneous substitution. */
  ghost function Substitute(text: string, values: Values): string
    decreases |text|
  {
    if |text| == 0 then ""
    else if text[0] == '$' && AnyStarts(text[1..], values.Keys) then
      var k := KeyAt(text[1..], values.Keys);
      values[k] + Substitute(text[|k| + 1..], values)
    else [text[0]] + Substitute(text[1..], values)
  }

  /** No key begins what the substitution makes of a text, so a dollar sign in front of it never comes to start one. */
  ghost predicate Stray(rest: string, values: Values) {
    !AnyStarts(Substitute(rest, values), values.Keys)
  }

  /** Behind every dollar sign there is a key that is still to be replaced, or a stray text. */
  ghost predicate Ready(text: string, values: Values, left: set<string>) {
    if |text| == 0 then true
    else (text[0] == '$' ==> AnyStarts(text[1..], left) || Stray(text[1..], values)) && Ready(text[1..], values, left)
  }

  ghost predicate Settled(text: string, values: Values) {
    Ready(text, values, values.Keys)
  }

  lemma {:induction false} CompleteIsSettled(text: string, values: Values)
    requires Complete(text, values.Keys)
    ensures Settled(text, values)
  {
    if |text| > 0 {
      CompleteIsSettled(text[1..], values);
    }
  }

  lemma PrefixesAgree(a: string, b: string, text: string)
    requires a <= text && b <= text && |a| <= |b|
    ensures a <= b
  {}

  lemma DollarPrefix(k: string, text: string)
    ensures "$" + k <= text <==> |text| > 0 && text[0] == '$' && k <= text[1..]
  {
    assert ("$" + k)[1..] == k;
    if |text| > 0 && text[0] == '$' && k <= text[1..] {
      assert text == "$" + text[1..];
    }
  }

  /** Plain text passes through the substitution. */
  lemma {:induction false} SubstituteSkips(plain: string, text: string, values: Values)
    requires '$' !in plain
    ensures Substitute(plain + text, values) == plain + Substitute(text, values)
  {
    if |plain| == 0 {
      assert plain + text == text;
    } else {
      assert plain[0] in plain && (plain + text)[0] == plain[0];
      assert (plain + text)[1..] == plain[1..] + text;
      SubstituteSkips(plain[1..], text, values);
    }
  }

  /** With coherent keys it does not matter which of the keys that fit is taken. */
  lemma AnyKeyWillDo(text: string, values: Values, k: string)
    requires DollarFree(values) && Coherent(values) && k in values && k <= text
    ensures Substitute("$" + text, values) == values[k] + Substitute(text[|k|..], values)
  {
    assert ("$" + text)[1..] == text;
    var m := KeyAt(text, values.Keys);
    assert ("$" + text)[|m| + 1..] == text[|m|..];
    if |k| <= |m| {
      PrefixesAgree(k, m, text);
      assert Agreeing(values, k, m);
      LongerKey(text, values, k, m);
    } else {
      PrefixesAgree(m, k, text);
      assert Agreeing(values, m, k);
      LongerKey(text, values, m, k);
    }
  }

  lemma LongerKey(text: string, values: Values, k: string, m: string)
    requires k in values && m in values && k <= m <= text && '$' !in m && Agreeing(values, k, m)
    ensures values[k] + Substitute(text[|k|..], values) == values[m] + Substitute(text[|m|..], values)
  {
    var gap, tail := m[|k|..], text[|m|..];
    assert text[|k|..] == gap + tail;
    assert forall c :: c in gap ==> c in m;
    SubstituteSkips(gap, tail, values);
    Regroup(values[k], gap, Substitute(tail, values));
  }

  lemma Regroup(a: string, b: string, c: string)
    ensures a + (b + c) == a + b + c
  {}

  lemma CancelFront(p: string, x: string, y: string)
    ensures p + x == p + y <==> x == y
  {
    assert (p + x)[|p|..] == x && (p + y)[|p|..] == y;
  }

  // ---------------------------------------------------------------- one pass

  lemma ReplaceHere(pattern: string, tail: string, value: string)
    requires |pattern| > 0
    ensures ReplaceAll(pattern + tail, pattern, value) == value + ReplaceAll(tail, pattern, value)
  {
    assert (pattern + tail)[|pattern|..] == tail;
  }

  /** Text without a dollar sign passes through a replacement. */
  lemma {:induction false} ReplaceSkips(plain: string, text: string, pattern: string, value: string)
    requires |pattern| > 0 && pattern[0] == '$' && '$' !in plain
    ensures ReplaceAll(plain + text, pattern, value) == plain + ReplaceAll(text, pattern, value)
  {
    if |plain| == 0 {
      assert plain + text == text;
    } else {
      assert plain[0] in plain && (plain + text)[0] == plain[0];
      assert !(pattern <= plain + text);
      assert (plain + text)[1..] == plain[1..] + text;
      ReplaceSkips(plain[1..], text, pattern, value);
      var rest := ReplaceAll(text, pattern, value);
      assert [plain[0]] + (plain[1..] + rest) == plain + rest;
    }
  }

  /** A pass at a dollar sign whose key it is, at one whose key it is not, and at any other character. */
  lemma PassStep(c: char, rest: string, key: string, values: Values)
    requires key in values
    ensures c == '$' && key <= rest ==> Pass([c] + rest, key, values) == values[key] + Pass(rest[|key|..], key, values)
    ensures !(c == '$' && key <= rest) ==> Pass([c] + rest, key, values) == [c] + Pass(rest, key, values)
  {
    var text := [c] + rest;
    assert text[0] == c && text[1..] == rest;
    DollarPrefix(key, text);
    if c == '$' && key <= rest {
      assert rest == key + rest[|key|..];
      assert text == "$" + key + rest[|key|..];
      ReplaceHere("$" + key, rest[|key|..], values[key]);
    }
  }

  lemma PassSkips(plain: string, text: string, key: string, values: Values)
    requires key in values && '$' !in plain
    ensures Pass(plain + text, key, values) == plain + Pass(text, key, values)
  {
    ReplaceSkips(plain, text, "$" + key, values[key]);
  }

  /** A key that starts a text lies in its dollar-free beginning, so a pass over the text leaves it there. */
  lemma KeySurvives(text: string, k: string, key: string, values: Values)
    requires DollarFree(values) && k in values && key in values && k <= text
    ensures k <= Pass(text, key, values)
    ensures Pass(text, key, values) == k + Pass(text[|k|..], key, values)
  {
    assert text == k + text[|k|..];
    PassSkips(k, text[|k|..], key, values);
  }

  /** A key that starts a text also starts what the substitution makes of it. */
  lemma KeyStaysInFront(text: string, k: string, values: Values)
    requires DollarFree(values) && k in values && k <= text
    ensures k <= Substitute(text, values)
  {
    assert text == k + text[|k|..];
    SubstituteSkips(k, text[|k|..], values);
  }

  lemma StrayStartsNoKey(text: string, values: Values)
    requires DollarFree(values) && Stray(text, values)
    ensures !AnyStarts(text, values.Keys)
  {
    if AnyStarts(text, values.Keys) {
      KeyStaysInFront(text, KeyAt(text, values.Keys), values);
    }
  }

  /** A stray dollar sign stays. */
  lemma StrayStays(text: string, values: Values)
    requires DollarFree(values) && Stray(text, values)
    ensures Substitute("$" + text, values) == "$" + Substitute(text, values)
  {
    assert ("$" + text)[1..] == text;
    StrayStartsNoKey(text, values);
  }

  /** The heart of it: a pass does not change what the text stands for. */
  lemma {:induction false} PassKeepsMeaning(text: string, values: Values, key: string)
    requires DollarFree(values) && Coherent(values) && key in values && Settled(text, values)
    ensures Substitute(Pass(text, key, values), values) == Substitute(text, values)
    decreases |text|
  {
    if |text| > 0 {
      var c, rest := text[0], text[1..];
      assert text == [c] + rest;
      PassStep(c, rest, key, values);
      if c == '$' && key <= rest {
        SettledTail(rest, values, key);
        PassKeepsMeaning(rest[|key|..], values, key);
        SubstituteSkips(values[key], Pass(rest[|key|..], key, values), values);
        AnyKeyWillDo(rest, values, key);
      } else {
        PassKeepsMeaning(rest, values, key);
        var after := Pass(rest, key, values);
        assert ([c] + after)[1..] == after;
        if c == '$' && AnyStarts(rest, values.Keys) {
          UnreplacedKeyKeepsMeaning(rest, values, key);
        } else if c == '$' {
          StrayStays(rest, values);
          StrayStays(after, values);
        }
      }
    }
  }

  /** A dollar sign in front of another key than the one of the pass. */
  lemma UnreplacedKeyKeepsMeaning(rest: string, values: Values, key: string)
    requires DollarFree(values) && Coherent(values) && key in values && AnyStarts(rest, values.Keys)
    requires Substitute(Pass(rest, key, values), values) == Substitute(rest, values)
    ensures Substitute("$" + Pass(rest, key, values), values) == Substitute("$" + rest, values)
  {
    var k := KeyAt(rest, values.Keys);
    var tail := rest[|k|..];
    var after := Pass(tail, key, values);
    assert rest == k + tail;
    KeySurvives(rest, k, key, values);
    SubstituteSkips(k, after, values);
    SubstituteSkips(k, tail, values);
    CancelFront(k, Substitute(after, values), Substitute(tail, values));
    AnyKeyWillDo(k + tail, values, k);
    AnyKeyWillDo(k + after, values, k);
    assert (k + tail)[|k|..] == tail && (k + after)[|k|..] == after;
  }

  lemma {:induction false} ReadySkips(plain: string, text: string, values: Values, left: set<string>)
    requires '$' !in plain
    ensures Ready(plain + text, values, left) <==> Ready(text, values, left)
  {
    if |plain| == 0 {
      assert plain + text == text;
    } else {
      assert plain[0] in plain && (plain + text)[0] == plain[0];
      assert (plain + text)[1..] == plain[1..] + text;
      ReadySkips(plain[1..], text, values, left);
    }
  }

  lemma SettledTail(rest: string, values: Values, key: string)
    requires DollarFree(values) && key in values && key <= rest && Settled("$" + rest, values)
    ensures Settled(rest[|key|..], values)
  {
    ReadyTail(rest, values, key, values.Keys);
  }

  lemma ReadyTail(rest: string, values: Values, key: string, left: set<string>)
    requires DollarFree(values) && key in values && key <= rest && Ready("$" + rest, values, left)
    ensures Ready(rest[|key|..], values, left)
  {
    assert ("$" + rest)[1..] == rest;
    assert rest == key + rest[|key|..];
    ReadySkips(key, rest[|key|..], values, left);
  }

  /** After the pass of a key nothing waits for it any more. */
  lemma {:induction false} PassUsesKey(text: string, values: Values, key: string, left: set<string>)
    requires DollarFree(values) && Coherent(values) && key in values && left <= values.Keys && Ready(text, values, left)
    ensures Ready(Pass(text, key, values), values, left - {key})
    decreases |text|
  {
    if |text| > 0 {
      var c, rest := text[0], text[1..];
      assert text == [c] + rest;
      PassStep(c, rest, key, values);
      if c == '$' && key <= rest {
        ReadyTail(rest, values, key, left);
        PassUsesKey(rest[|key|..], values, key, left);
        ReadySkips(values[key], Pass(rest[|key|..], key, values), values, left - {key});
      } else {
        PassUsesKey(rest, values, key, left);
        var after := Pass(rest, key, values);
        assert ([c] + after)[1..] == after;
        if c == '$' && AnyStarts(rest, left) {
          var k := KeyAt(rest, left);
          KeySurvives(rest, k, key, values);
          assert k in left - {key};
        } else if c == '$' {
          ReadyGrows(rest, values, left, values.Keys);
          PassKeepsMeaning(rest, values, key);
        }
      }
    }
  }

  // ---------------------------------------------------------------- all passes

  ghost function KeysOf(order: seq<string>): set<string> {
    set k | k in order
  }

  lemma KeysOfLast(order: seq<string>)
    requires |order| > 0
    ensures KeysOf(order) == KeysOf(order[..|order| - 1]) + {order[|order| - 1]}
  {
    assert order == order[..|order| - 1] + [order[|order| - 1]];
  }

  lemma {:induction false} PassesKeepMeaning(text: string, order: seq<string>, values: Values)
    requires DollarFree(values) && Coherent(values) && Settled(text, values)
    requires forall k :: k in order ==> k in values
    ensures Substitute(RenderInOrder(text, order, values), values) == Substitute(text, values)
    ensures Ready(RenderInOrder(text, order, values), values, values.Keys - KeysOf(order))
  {
    if |order| == 0 {
      assert values.Keys - KeysOf(order) == values.Keys;
    } else {
      var init, last := order[..|order| - 1], order[|order| - 1];
      assert forall k :: k in init ==> k in order;
      PassesKeepMeaning(text, init, values);
      var before, left := RenderInOrder(text, init, values), values.Keys - KeysOf(init);
      ReadyGrows(before, values, left, values.Keys);
      PassKeepsMeaning(before, values, last);
      PassUsesKey(before, values, last, left);
      KeysOfLast(order);
      assert left - {last} == values.Keys - KeysOf(order);
    }
  }

  lemma {:induction false} ReadyGrows(text: string, values: Values, left: set<string>, more: set<string>)
    requires left <= more && Ready(text, values, left)
    ensures Ready(text, values, more)
  {
    if |text| > 0 {
      ReadyGrows(text[1..], values, left, more);
      if AnyStarts(text[1..], left) {
        var k :| k in left && k <= text[1..];
        assert k in more;
      }
    }
  }

  /** With only stray dollar signs left there is nothing to substitute, and no pass does anything. */
  lemma {:induction false} OnlyStrays(text: string, values: Values)
    requires DollarFree(values) && Ready(text, values, {})
    ensures Substitute(text, values) == text
    ensures forall key :: key in values ==> Pass(text, key, values) == text
  {
    if |text| > 0 {
      OnlyStrays(text[1..], values);
      assert text == [text[0]] + text[1..];
      if text[0] == '$' {
        StrayStays(text[1..], values);
        StrayStartsNoKey(text[1..], values);
      }
      forall key | key in values ensures Pass(text, key, values) == text {
        PassStep(text[0], text[1..], key, values);
      }
    }
  }

  /** Every order of the passes gives the one simultaneous substitution. */
  lemma EveryOrderSubstitutes(text: string, order: seq<string>, values: Values)
    requires DollarFree(values) && Coherent(values) && Settled(text, values) && IsOrder(order, values.Keys)
    ensures RenderInOrder(text, order, values) == Substitute(text, values)
  {
    PassesKeepMeaning(text, order, values);
    assert values.Keys - KeysOf(order) == {};
    OnlyStrays(RenderInOrder(text, order, values), values);
  }

  /** Rendering again, with any passes in any order, changes nothing. */
  lemma {:induction false} RenderTwice(text: string, order: seq<string>, values: Values, again: seq<string>)
    requires DollarFree(values) && Coherent(values) && Settled(text, values) && IsOrder(order, values.Keys)
    requires forall k :: k in again ==> k in values
    ensures RenderInOrder(RenderInOrder(text, order, values), again, values) == RenderInOrder(text, order, values)
  {
    if |again| > 0 {
      RenderTwice(text, order, values, again[..|again| - 1]);
      PassesKeepMeaning(text, order, values);
      assert values.Keys - KeysOf(order) == {};
      OnlyStrays(RenderInOrder(text, order, values), values);
    }
  }

  function Dollars(text: string): nat {
    if |text| == 0 then 0 else (if text[0] == '$' then 1 else 0) + Dollars(text[1..])
  }

  lemma {:induction false} DollarsOf(a: string, b: string)
    ensures Dollars(a + b) == Dollars(a) + Dollars(b)
    ensures '$' !in a ==> Dollars(a) == 0
  {
    if |a| == 0 {
      assert a + b == b;
    } else {
      assert a[0] in a && (a + b)[1..] == a[1..] + b;
      DollarsOf(a[1..], b);
    }
  }

  /** A pass that does anything uses up a dollar sign. */
  lemma {:induction false} PassDrops(text: string, key: string, values: Values)
    requires DollarFree(values) && key in values
    ensures Dollars(Pass(text, key, values)) <= Dollars(text)
    ensures Pass(text, key, values) == text || Dollars(Pass(text, key, values)) < Dollars(text)
    decreases |text|
  {
    if |text| > 0 {
      var c, rest := text[0], text[1..];
      assert text == [c] + rest;
      PassStep(c, rest, key, values);
      if c == '$' && key <= rest {
        PassDrops(rest[|key|..], key, values);
        DollarsOf(values[key], Pass(rest[|key|..], key, values));
        assert rest == key + rest[|key|..];
        DollarsOf(key, rest[|key|..]);
      } else {
        PassDrops(rest, key, values);
        assert ([c] + Pass(rest, key, values))[1..] == Pass(rest, key, values);
      }
    }
  }

  /** So a render that leaves a text as it is consists of passes that do. */
  lemma {:induction false} PassesDrop(text: string, order: seq<string>, values: Values)
    requires DollarFree(values) && forall k :: k in order ==> k in values
    ensures Dollars(RenderInOrder(text, order, values)) <= Dollars(text)
    ensures RenderInOrder(text, order, values) == text ==> forall k :: k in order ==> Pass(text, k, values) == text
    ensures RenderInOrder(text, order, values) == text || Dollars(RenderInOrder(text, order, values)) < Dollars(text)
  {
    if |order| > 0 {
      var init, last := order[..|order| - 1], order[|order| - 1];
      assert order == init + [last];
      PassesDrop(text, init, values);
      PassDrops(RenderInOrder(text, init, values), last, values);
    }
  }

  /** If a template is not settled, the text it stands for still contains a key behind a dollar sign. */
  lemma {:induction false} UnsettledChanges(text: string, values: Values) returns (k: string)
    requires DollarFree(values) && !Settled(text, values)
    ensures k in values && Pass(Substitute(text, values), k, values) != Substitute(text, values)
    decreases |text|
  {
    var c, rest := text[0], text[1..];
    if c == '$' && AnyStarts(rest, values.Keys) {
      var found := KeyAt(rest, values.Keys);
      var tail := rest[|found|..];
      assert rest == found + tail && text[|found| + 1..] == tail;
      ReadySkips(found, tail, values, values.Keys);
      k := UnsettledChanges(tail, values);
      var after := Substitute(tail, values);
      PassSkips(values[found], after, k, values);
      CancelFront(values[found], Pass(after, k, values), after);
    } else if c == '$' && !Stray(rest, values) {
      k := CompletedKey(rest, values);
    } else {
      k := UnsettledChanges(rest, values);
      var after := Substitute(rest, values);
      PassStep(c, after, k, values);
      CancelFront([c], Pass(after, k, values), after);
    }
  }

  lemma CompletedKey(rest: string, values: Values) returns (k: string)
    requires DollarFree(values) && !Stray(rest, values)
    ensures k in values && Pass("$" + Substitute(rest, values), k, values) != "$" + Substitute(rest, values)
  {
    var after := Substitute(rest, values);
    k := KeyAt(after, values.Keys);
    var tail := after[|k|..];
    assert after == k + tail && ("$" + after)[1..] == after;
    PassStep('$', after, k, values);
    PassDrops(tail, k, values);
    DollarsOf(values[k], Pass(tail, k, values));
    DollarsOf(k, tail);
  }

  /** One render, in any order, gives the substitution, and a second one, in any order, changes nothing. */
  ghost predicate RendersOnce(text: string, values: Values) {
    forall a, b :: IsOrder(a, values.Keys) && IsOrder(b, values.Keys) ==>
      && RenderInOrder(text, a, values) == Substitute(text, values)
      && RenderInOrder(RenderInOrder(text, a, values), b, values) == RenderInOrder(text, a, values)
  }

  /** The condition on the template is exact. */
  lemma RendersOnceIffSettled(text: string, values: Values)
    requires DollarFree(values) && Coherent(values)
    ensures RendersOnce(text, values) <==> Settled(text, values)
  {
    if Settled(text, values) {
      forall a, b | IsOrder(a, values.Keys) && IsOrder(b, values.Keys)
        ensures RenderInOrder(text, a, values) == Substitute(text, values)
        ensures RenderInOrder(RenderInOrder(text, a, values), b, values) == RenderInOrder(text, a, values)
      {
        EveryOrderSubstitutes(text, a, values);
        RenderTwice(text, a, values, b);
      }
    } else {
      var k := UnsettledChanges(text, values);
      var order := SomeOrder(values.Keys);
      PassesDrop(Substitute(text, values), order, values);
      assert k in order;
    }
  }

  /** The result is free of dollar signs exactly when the template asked for defined keys only. */
  lemma {:induction false} DollarFreeIffComplete(text: string, values: Values)
    requires DollarFree(values)
    ensures '$' !in Substitute(text, values) <==> Complete(text, values.Keys)
    decreases |text|
  {
    if |text| > 0 {
      if text[0] == '$' && AnyStarts(text[1..], values.Keys) {
        var k := KeyAt(text[1..], values.Keys);
        assert text[1..][|k|..] == text[|k| + 1..];
        DollarFreeIffComplete(text[|k| + 1..], values);
        assert text[1..] == k + text[|k| + 1..];
        CompleteSkips(k, text[|k| + 1..], values.Keys);
      } else {
        DollarFreeIffComplete(text[1..], values);
      }
    }
  }

  lemma {:induction false} CompleteSkips(plain: string, text: string, keys: set<string>)
    requires '$' !in plain
    ensures Complete(plain + text, keys) <==> Complete(text, keys)
  {
    if |plain| == 0 {
      assert plain + text == text;
    } else {
      assert plain[0] in plain && (plain + text)[0] == plain[0];
      assert (plain + text)[1..] == plain[1..] + text;
      CompleteSkips(plain[1..], text, keys);
    }
  }

  /** A placeholder nobody defines, such as the PIDFILE of the Unbound template, does no harm. */
  lemma UndefinedPlaceholderIsSettled(name: string, rest: string, values: Values)
    requires '$' !in name && forall k :: k in values ==> !(k <= name) && !(name <= k)
    ensures Settled("$" + name + rest, values) <==> Settled(name + rest, values)
  {
    assert ("$" + name + rest)[1..] == name + rest;
    SubstituteSkips(name, rest, values);
    var after := name + Substitute(rest, values);
    forall k | k in values ensures !(k <= after) {
      if k <= after && |k| <= |name| {
        PrefixesAgree(k, name, after);
      } else if k <= after {
        PrefixesAgree(name, k, after);
      }
    }
  }

  // ---------------------------------------------------------------- when it does matter

  /** The first pass of an order is a pass over the template itself. */
  lemma {:induction false} FirstPass(text: string, key: string, rest: seq<string>, values: Values)
    requires key in values && forall k :: k in rest ==> k in values
    ensures RenderInOrder(text, [key] + rest, values) == RenderInOrder(Pass(text, key, values), rest, values)
  {
    if |rest| == 0 {
      assert [key] + rest == [key] && [key][..0] == [];
      assert RenderInOrder(text, [], values) == text;
    } else {
      assert ([key] + rest)[..|rest|] == [key] + rest[..|rest| - 1];
      FirstPass(text, key, rest[..|rest| - 1], values);
    }
  }

  lemma {:induction false} NothingToDo(text: string, order: seq<string>, values: Values)
    requires '$' !in text && forall k :: k in order ==> k in values
    ensures RenderInOrder(text, order, values) == text
  {
    if |order| > 0 {
      NothingToDo(text, order[..|order| - 1], values);
      assert text + "" == text;
      PassSkips(text, "", order[|order| - 1], values);
    }
  }

  /** A template of one key: the first pass whose key fits decides, and the others find nothing. */
  lemma FirstFitDecides(m: string, k: string, rest: seq<string>, values: Values)
    requires DollarFree(values) && m in values && k in values && k <= m && forall j :: j in rest ==> j in values
    ensures RenderInOrder("$" + m, [k] + rest, values) == values[k] + m[|k|..]
  {
    FirstPass("$" + m, k, rest, values);
    PassStep('$', m, k, values);
    assert forall c :: c in m[|k|..] ==> c in m;
    assert m[|k|..] + "" == m[|k|..];
    PassSkips(m[|k|..], "", k, values);
    NothingToDo(values[k] + m[|k|..], rest, values);
  }

  /** A key that begins another one: the two orders agree exactly when the pair is coherent. */
  lemma OverlappingKeysConflict(values: Values, k: string, m: string, restK: seq<string>, restM: seq<string>)
    requires DollarFree(values) && k in values && m in values && k <= m
    requires (forall j :: j in restK ==> j in values) && forall j :: j in restM ==> j in values
    ensures RenderInOrder("$" + m, [k] + restK, values) == RenderInOrder("$" + m, [m] + restM, values) <==>
            Agreeing(values, k, m)
  {
    FirstFitDecides(m, k, restK, values);
    FirstFitDecides(m, m, restM, values);
    assert m[|m|..] == "" && values[m] + "" == values[m];
  }

  /** Some order visits a given key first. */
  lemma OrderFrom(keys: set<string>, first: string) returns (rest: seq<string>)
    requires first in keys
    ensures IsOrder([first] + rest, keys)
    ensures forall k :: k in rest ==> k in keys
  {
    rest := SomeOrder(keys - {first});
    var order := [first] + rest;
    assert forall k :: k in order <==> k == first || k in rest;
    assert forall i :: 0 <= i < |rest| ==> rest[i] in rest;
  }

  lemma {:induction false} SomeOrder(keys: set<string>) returns (order: seq<string>)
    ensures IsOrder(order, keys)
  {
    order := [];
    if keys != {} {
      var k :| k in keys;
      order := OrderFrom(keys, k);
      order := [k] + order;
    }
  }

  ghost predicate OrdersAgree(text: string, values: Values) {
    forall a, b :: IsOrder(a, values.Keys) && IsOrder(b, values.Keys) ==>
      RenderInOrder(text, a, values) == RenderInOrder(text, b, values)
  }

  lemma CoherentOrdersAgree(text: string, values: Values)
    requires DollarFree(values) && Coherent(values) && Settled(text, values)
    ensures OrdersAgree(text, values)
  {
    forall a, b | IsOrder(a, values.Keys) && IsOrder(b, values.Keys)
      ensures RenderInOrder(text, a, values) == RenderInOrder(text, b, values)
    {
      EveryOrderSubstitutes(text, a, values);
      EveryOrderSubstitutes(text, b, values);
    }
  }

  lemma OrdersDiffer(text: string, a: seq<string>, b: seq<string>, values: Values)
    requires IsOrder(a, values.Keys) && IsOrder(b, values.Keys)
    requires RenderInOrder(text, a, values) != RenderInOrder(text, b, values)
    ensures !OrdersAgree(text, values)
  {}

  lemma IncoherentOrdersDiffer(values: Values, k: string, m: string)
    requires DollarFree(values) && k in values && m in values && k <= m && !Agreeing(values, k, m)
    ensures Complete("$" + m, values.Keys) && !OrdersAgree("$" + m, values)
  {
    var restK := OrderFrom(values.Keys, k);
    var restM := OrderFrom(values.Keys, m);
    OverlappingKeysConflict(values, k, m, restK, restM);
    OneKeyIsComplete(m, values);
    OrdersDiffer("$" + m, [k] + restK, [m] + restM, values);
  }

  /**
   * For dollar-free keys and values: the order matters for no template that asks for defined keys only, exactly when
   * the keys are coherent.
   */
  lemma OrdersAgreeIffCoherent(values: Values)
    requires DollarFree(values)
    ensures (forall text :: Complete(text, values.Keys) ==> OrdersAgree(text, values)) <==> Coherent(values)
  {
    if Coherent(values) {
      forall text | Complete(text, values.Keys) ensures OrdersAgree(text, values) {
        CompleteIsSettled(text, values);
        CoherentOrdersAgree(text, values);
      }
    } else {
      var k, m :| k in values && m in values && k <= m && !Agreeing(values, k, m);
      IncoherentOrdersDiffer(values, k, m);
    }
  }

  /** In particular no order matters to such a template when no key begins another one, whatever the values. */
  lemma PrefixFreeOrdersAgree(text: string, values: Values)
    requires DollarFree(values) && Complete(text, values.Keys)
    requires forall k, m :: k in values && m in values && k <= m ==> k == m
    ensures OrdersAgree(text, values)
  {
    PrefixFreeIsCoherent(values);
    OrdersAgreeIffCoherent(values);
  }

  lemma OneKeyIsComplete(m: string, values: Values)
    requires DollarFree(values) && m in values
    ensures Complete("$" + m, values.Keys)
  {
    assert ("$" + m)[1..] == m && m + "" == m;
    CompleteSkips(m, "", values.Keys);
  }

  lemma TwoPasses(text: string, a: string, b: string, values: Values)
    requires a in values && b in values
    ensures RenderInOrder(text, [a, b], values) == Pass(Pass(text, a, values), b, values)
  {
    FirstPass(text, a, [b], values);
    FirstPass(Pass(text, a, values), b, [], values);
    assert [a] + [b] == [a, b] && [b] + [] == [b];
  }

  lemma TwoOrders(order: seq<string>, a: string, b: string)
    requires a != b && IsOrder(order, {a, b})
    ensures order == [a, b] || order == [b, a]
  {
    assert a in order && b in order;
    var second, third := if |order| > 1 then order[1] else a, if |order| > 2 then order[2] else a;
    forall i | 0 <= i < |order| ensures order[i] == a || order[i] == b {
      assert order[i] in order;
    }
    assert order[0] == a || order[0] == b;
    assert (second == a || second == b) && (third == a || third == b);
  }

  /** With two keys there are two renders. */
  lemma TwoKeysAgreeIff(text: string, a: string, b: string, values: Values)
    requires values.Keys == {a, b} && a != b
    ensures OrdersAgree(text, values) <==>
            RenderInOrder(text, [a, b], values) == RenderInOrder(text, [b, a], values)
  {
    assert IsOrder([a, b], values.Keys) && IsOrder([b, a], values.Keys);
    forall order | IsOrder(order, values.Keys) ensures order == [a, b] || order == [b, a] {
      TwoOrders(order, a, b);
    }
  }

  lemma SiteOf(b: string, values: Values)
    requires b in values
    ensures Pass("$" + b, b, values) == values[b]
  {
    PassStep('$', b, b, values);
    assert b[|b|..] == "" && values[b] + "" == values[b];
  }

  lemma SiteUntouched(b: string, a: string, values: Values)
    requires a in values && '$' !in b && !(a <= b)
    ensures Pass("$" + b, a, values) == "$" + b
  {
    PassStep('$', b, a, values);
    assert b + "" == b;
    PassSkips(b, "", a, values);
  }

  lemma CancelBoth(p: string, x: string, y: string, q: string)
    ensures p + (x + q) == p + (y + q) <==> x == y
  {
    CancelFront(p, x + q, y + q);
    if x + q == y + q {
      assert |x| == |y|;
      assert (x + q)[..|x|] == x && (y + q)[..|y|] == y;
    }
  }

  /** The pass of b over a value that contains the site of b between two plain texts. */
  lemma PassInside(p: string, q: string, b: string, values: Values)
    requires b in values && '$' !in p && '$' !in q
    ensures Pass(p + ("$" + (b + q)), b, values) == p + (values[b] + q)
  {
    PassSkips(p, "$" + (b + q), b, values);
    PassStep('$', b + q, b, values);
    assert (b + q)[|b|..] == q && q + "" == q;
    PassSkips(q, "", b, values);
  }

  /**
   * A value that brings in the dollar sign of another key b is substituted again in one order and not in the other:
   * the two agree exactly when b stands for itself.
   */
  lemma DollarInValueConflicts(values: Values, a: string, b: string, p: string, q: string)
    requires a in values && b in values && '$' !in a && '$' !in p && '$' !in q && !(b <= a)
    requires values[a] == p + ("$" + (b + q))
    ensures RenderInOrder("$" + a, [a, b], values) == RenderInOrder("$" + a, [b, a], values) <==> values[b] == "$" + b
  {
    TwoPasses("$" + a, a, b, values);
    TwoPasses("$" + a, b, a, values);
    SiteOf(a, values);
    SiteUntouched(a, b, values);
    PassInside(p, q, b, values);
    assert values[a] == p + (("$" + b) + q);
    CancelBoth(p, values[b], "$" + b, q);
  }

  /** Of two keys, the value of one bringing in the other: no order matters exactly when the other stands for itself. */
  lemma DollarInValueDecides(values: Values, a: string, b: string, p: string, q: string)
    requires values.Keys == {a, b} && '$' !in a && '$' !in p && '$' !in q && !(b <= a)
    requires values[a] == p + ("$" + (b + q))
    ensures OrdersAgree("$" + a, values) <==> values[b] == "$" + b
  {
    DollarInValueConflicts(values, a, b, p, q);
    TwoKeysAgreeIff("$" + a, a, b, values);
  }

  /** A key that does not fit in front of a dollar sign does not fit across it. */
  lemma BeforeDollar(r: string, k: string, site: string)
    requires '$' !in k && |site| > 0 && site[0] == '$'
    ensures k <= r + site ==> k <= r
  {
    if |k| > |r| {
      assert (r + site)[|r|] == '$';
    }
  }

  /** A pass over a dollar sign that its key does not follow goes on behind the plain text. */
  lemma PassBehind(r: string, site: string, key: string, values: Values)
    requires key in values && '$' !in r && '$' !in key && |site| > 0 && site[0] == '$' && !(key <= r)
    ensures Pass("$" + (r + site), key, values) == "$" + (r + Pass(site, key, values))
  {
    BeforeDollar(r, key, site);
    PassStep('$', r + site, key, values);
    PassSkips(r, site, key, values);
  }

  /** The value of b comes first and completes the key r + s. */
  lemma SuppliedFirst(values: Values, r: string, s: string, b: string, u: string)
    requires r + s in values && b in values && '$' !in b && '$' !in r && '$' !in u
    requires values[b] == s + u && !(b <= r)
    ensures RenderInOrder("$" + (r + ("$" + b)), [b, r + s], values) == values[r + s] + u
  {
    var a := r + s;
    TwoPasses("$" + (r + ("$" + b)), b, a, values);
    PassBehind(r, "$" + b, b, values);
    SiteOf(b, values);
    assert r + (s + u) == a + u;
    PassStep('$', a + u, a, values);
    assert (a + u)[|a|..] == u && u + "" == u;
    PassSkips(u, "", a, values);
  }

  /** The pass of the key r + s comes first and finds nothing, and the dollar sign stays. */
  lemma SuppliedLast(values: Values, r: string, s: string, b: string)
    requires r + s in values && b in values && '$' !in b && '$' !in r && '$' !in s && |s| > 0
    requires !(b <= r) && !(r + s <= b)
    ensures RenderInOrder("$" + (r + ("$" + b)), [r + s, b], values) == "$" + (r + values[b])
  {
    var a := r + s;
    TwoPasses("$" + (r + ("$" + b)), a, b, values);
    PassBehind(r, "$" + b, a, values);
    SiteUntouched(b, a, values);
    PassBehind(r, "$" + b, b, values);
    SiteOf(b, values);
  }

  /**
   * An unsettled dollar sign: the text r after it begins a key r + s, and the value of the key b that follows supplies
   * the missing s. With dollar-free values the two orders never agree.
   */
  lemma UnsettledDollarConflicts(values: Values, r: string, s: string, b: string, u: string)
    requires DollarFree(values) && r + s in values && b in values && |s| > 0
    requires values[b] == s + u && !(b <= r) && !(r + s <= b)
    ensures RenderInOrder("$" + (r + ("$" + b)), [b, r + s], values) !=
            RenderInOrder("$" + (r + ("$" + b)), [r + s, b], values)
  {
    assert forall c :: c in r || c in s ==> c in r + s;
    assert forall c :: c in u ==> c in values[b];
    SuppliedFirst(values, r, s, b, u);
    SuppliedLast(values, r, s, b);
    assert '$' !in values[r + s] + u;
    assert ("$" + (r + values[b]))[0] == '$';
  }
  /** Of two keys, the value of one completing the other in the template: the order always matters. */
  lemma UnsettledDollarDecides(values: Values, r: string, s: string, b: string, u: string)
    requires DollarFree(values) && values.Keys == {r + s, b} && |s| > 0
    requires values[b] == s + u && !(b <= r) && !(r + s <= b)
    ensures !OrdersAgree("$" + (r + ("$" + b)), values)
  {
    UnsettledDollarConflicts(values, r, s, b, u);
    assert r + s <= r + s;
    TwoKeysAgreeIff("$" + (r + ("$" + b)), b, r + s, values);
  }
}
