/**
 The structural scanners of motu_proxy/parser.py against a grammar: properly nested `{}` and `[]`
 around strings and other bytes, with the structural tokens of section 2 and the strings and escapes
 of section 7 of RFC 8259.  What stands between the brackets is otherwise opaque.
 */
module JsonContainer {
  import opened Bytes
  import opened Wrappers

  const QUOTE: Byte := 0x22
  const BACKSLASH: Byte := 0x5C
  const OPEN_BRACE: Byte := 0x7B
  const CLOSE_BRACE: Byte := 0x7D
  const OPEN_BRACKET: Byte := 0x5B
  const CLOSE_BRACKET: Byte := 0x5D

  predicate IsSpace(b: Byte) { b == 0x20 || b == 0x09 || b == 0x0D || b == 0x0A }

  // ----- The grammar, as derivation trees and the text they derive

  datatype StringChar = Raw(b: Byte) | Escaped(b: Byte)

  datatype Item = Plain(b: Byte) | Text(chars: seq<StringChar>) | Nested(brace: bool, items: seq<Item>)

  ghost predicate WellFormedChar(c: StringChar) {
    c.Raw? ==> c.b != QUOTE && c.b != BACKSLASH
  }

  ghost predicate WellFormed(item: Item) {
    match item
    case Plain(b) => b !in {QUOTE, OPEN_BRACE, CLOSE_BRACE, OPEN_BRACKET, CLOSE_BRACKET}
    case Text(chars) => forall c | c in chars :: WellFormedChar(c)
    case Nested(_, items) => forall i | i in items :: WellFormed(i)
  }

  ghost predicate AllWellFormed(items: seq<Item>) {
    forall i | i in items :: WellFormed(i)
  }

  ghost function RenderChars(chars: seq<StringChar>): (s: seq<Byte>) {
    if chars == [] then []
    else (if chars[0].Raw? then [chars[0].b] else [BACKSLASH, chars[0].b]) + RenderChars(chars[1..])
  }

  function Opener(brace: bool): (b: Byte) { if brace then OPEN_BRACE else OPEN_BRACKET }

  function Closer(brace: bool): (b: Byte) { if brace then CLOSE_BRACE else CLOSE_BRACKET }

  ghost function Render(item: Item): (s: seq<Byte>)
    decreases item, 1
  {
    match item
    case Plain(b) => [b]
    case Text(chars) => [QUOTE] + RenderChars(chars) + [QUOTE]
    case Nested(brace, items) => [Opener(brace)] + RenderAll(items) + [Closer(brace)]
  }

  ghost function RenderAll(items: seq<Item>): (s: seq<Byte>)
    decreases items, 0
  {
    if items == [] then [] else Render(items[0]) + RenderAll(items[1..])
  }

  ghost predicate IsContainer(text: seq<Byte>) {
    exists brace, items :: AllWellFormed(items) && text == Render(Nested(brace, items))
  }

  ghost predicate AllSpace(s: seq<Byte>) {
    forall i :: 0 <= i < |s| ==> IsSpace(s[i])
  }

  ghost predicate Framed(body: seq<Byte>, left: seq<Byte>, core: seq<Byte>, right: seq<Byte>) {
    body == left + core + right && AllSpace(left) && AllSpace(right) && IsContainer(core)
  }

  /** One container with nothing but JSON whitespace around it. */
  ghost predicate IsContainerText(body: seq<Byte>) {
    exists left, core, right :: Framed(body, left, core, right)
  }

  // ----- The scanning automaton

  /** What the scan makes of the bytes still to come, with the closers still expected (innermost last). */
  function Accepts(stack: seq<Byte>, inString: bool, escaped: bool, rest: seq<Byte>): (r: bool)
    decreases |rest|
  {
    if rest == [] then false else
    var b := rest[0];
    if inString then
      if escaped then Accepts(stack, true, false, rest[1..])
      else if b == BACKSLASH then Accepts(stack, true, true, rest[1..])
      else Accepts(stack, b != QUOTE, false, rest[1..])
    else if b == QUOTE then Accepts(stack, true, false, rest[1..])
    else if b == OPEN_BRACE then Accepts(stack + [CLOSE_BRACE], false, false, rest[1..])
    else if b == OPEN_BRACKET then Accepts(stack + [CLOSE_BRACKET], false, false, rest[1..])
    else if b == CLOSE_BRACE || b == CLOSE_BRACKET then
      stack != [] && b == stack[|stack| - 1]
      && (if |stack| == 1 then |rest| == 1 else Accepts(stack[..|stack| - 1], false, false, rest[1..]))
    else Accepts(stack, false, false, rest[1..])
  }

  // ----- Every derived text is accepted

  lemma {:induction false} AcceptsThroughString(stack: seq<Byte>, chars: seq<StringChar>, rest: seq<Byte>)
    requires forall c | c in chars :: WellFormedChar(c)
    ensures Accepts(stack, true, false, RenderChars(chars) + [QUOTE] + rest) == Accepts(stack, false, false, rest)
    decreases |chars|
  {
    var s := RenderChars(chars) + [QUOTE] + rest;
    if chars == [] {
      assert s[1..] == rest;
    } else {
      var tail := RenderChars(chars[1..]) + [QUOTE] + rest;
      AcceptsThroughString(stack, chars[1..], rest);
      assert WellFormedChar(chars[0]);
      if chars[0].Raw? {
        assert s == [chars[0].b] + tail;
      } else {
        assert s == [BACKSLASH] + ([chars[0].b] + tail);
        assert s[1..] == [chars[0].b] + tail && s[1..][1..] == tail;
      }
    }
  }

  lemma {:induction false} AcceptsThroughItem(stack: seq<Byte>, item: Item, rest: seq<Byte>)
    requires stack != [] && WellFormed(item)
    ensures Accepts(stack, false, false, Render(item) + rest) == Accepts(stack, false, false, rest)
    decreases item, 1
  {
    var s := Render(item) + rest;
    match item
    case Plain(b) =>
      assert s[1..] == rest;
    case Text(chars) =>
      assert s[1..] == RenderChars(chars) + [QUOTE] + rest;
      AcceptsThroughString(stack, chars, rest);
    case Nested(brace, items) =>
      var inner := stack + [Closer(brace)];
      assert s[1..] == RenderAll(items) + ([Closer(brace)] + rest);
      AcceptsThroughItems(inner, items, [Closer(brace)] + rest);
      assert ([Closer(brace)] + rest)[1..] == rest && inner[..|inner| - 1] == stack;
  }

  lemma {:induction false} AcceptsThroughItems(stack: seq<Byte>, items: seq<Item>, rest: seq<Byte>)
    requires stack != [] && AllWellFormed(items)
    ensures Accepts(stack, false, false, RenderAll(items) + rest) == Accepts(stack, false, false, rest)
    decreases items, 0
  {
    if items == [] {
      assert RenderAll(items) + rest == rest;
    } else {
      assert RenderAll(items) + rest == Render(items[0]) + (RenderAll(items[1..]) + rest);
      AcceptsThroughItem(stack, items[0], RenderAll(items[1..]) + rest);
      AcceptsThroughItems(stack, items[1..], rest);
    }
  }

  // ----- Every accepted text is derived

  /** What is left to read when each level still has its items and its closer to come. */
  ghost function Unwind(levels: seq<seq<Item>>, stack: seq<Byte>): (s: seq<Byte>)
    requires |levels| == |stack|
  {
    if stack == [] then [] else
    var top := |stack| - 1;
    RenderAll(levels[top]) + [stack[top]] + Unwind(levels[..top], stack[..top])
  }

  ghost predicate Derives(levels: seq<seq<Item>>, stack: seq<Byte>, rest: seq<Byte>) {
    |levels| == |stack| && (forall k :: 0 <= k < |levels| ==> AllWellFormed(levels[k])) && rest == Unwind(levels, stack)
  }

  /** One more item in front of the innermost level. */
  lemma PrependItem(levels: seq<seq<Item>>, stack: seq<Byte>, item: Item, rest: seq<Byte>)
    requires stack != [] && Derives(levels, stack, rest) && WellFormed(item)
    ensures var top := |stack| - 1;
            Derives(levels[top := [item] + levels[top]], stack, Render(item) + rest)
  {
    var top := |stack| - 1;
    var longer := levels[top := [item] + levels[top]];
    assert longer[..top] == levels[..top];
    assert longer[top][1..] == levels[top];
    assert RenderAll(longer[top]) == Render(item) + RenderAll(levels[top]);
  }

  /** A level that has been read completely becomes one item of the level around it. */
  lemma CloseLevel(inner: seq<seq<Item>>, stack: seq<Byte>, brace: bool, rest: seq<Byte>)
    returns (levels: seq<seq<Item>>)
    requires stack != [] && Derives(inner, stack + [Closer(brace)], rest)
    ensures Derives(levels, stack, [Opener(brace)] + rest)
  {
    var n := |stack|;
    var outer, item := inner[..n], Nested(brace, inner[n]);
    assert (stack + [Closer(brace)])[..n] == stack;
    var after := Unwind(outer, stack);
    assert rest == RenderAll(inner[n]) + [Closer(brace)] + after;
    assert [Opener(brace)] + rest == Render(item) + after;
    PrependItem(outer, stack, item, after);
    levels := outer[n - 1 := [item] + outer[n - 1]];
  }

  /** Reads an opened string up to its end. */
  lemma {:induction false} DeriveString(stack: seq<Byte>, rest: seq<Byte>)
    returns (chars: seq<StringChar>, after: seq<Byte>)
    requires Accepts(stack, true, false, rest)
    ensures WellFormed(Text(chars)) && rest == RenderChars(chars) + [QUOTE] + after
    ensures Accepts(stack, false, false, after)
    decreases |rest|
  {
    if rest[0] == QUOTE {
      chars, after := [], rest[1..];
    } else if rest[0] == BACKSLASH {
      assert rest[1..] != [] && rest[1..][1..] == rest[2..];
      var more;
      more, after := DeriveString(stack, rest[2..]);
      chars := [Escaped(rest[1])] + more;
      assert chars[1..] == more && rest == [rest[0], rest[1]] + rest[2..];
    } else {
      var more;
      more, after := DeriveString(stack, rest[1..]);
      chars := [Raw(rest[0])] + more;
      assert chars[1..] == more;
    }
  }

  lemma {:induction false} DeriveItems(stack: seq<Byte>, rest: seq<Byte>) returns (levels: seq<seq<Item>>)
    requires stack != [] && Accepts(stack, false, false, rest)
    requires forall k :: 0 <= k < |stack| ==> stack[k] == CLOSE_BRACE || stack[k] == CLOSE_BRACKET
    ensures Derives(levels, stack, rest)
    decreases |rest|
  {
    var b := rest[0];
    var top := |stack| - 1;
    assert rest == [b] + rest[1..];
    if b == QUOTE {
      var chars, after := DeriveString(stack, rest[1..]);
      levels := DeriveItems(stack, after);
      PrependItem(levels, stack, Text(chars), after);
      assert rest == Render(Text(chars)) + after;
      levels := levels[top := [Text(chars)] + levels[top]];
    } else if b == OPEN_BRACE || b == OPEN_BRACKET {
      var brace := b == OPEN_BRACE;
      var inner := DeriveItems(stack + [Closer(brace)], rest[1..]);
      levels := CloseLevel(inner, stack, brace, rest[1..]);
    } else if b == CLOSE_BRACE || b == CLOSE_BRACKET {
      if top == 0 {
        levels := [[]];
        assert stack[..0] == [] && levels[..0] == [];
      } else {
        var outer := DeriveItems(stack[..top], rest[1..]);
        levels := outer + [[]];
        assert levels[..top] == outer;
      }
    } else {
      levels := DeriveItems(stack, rest[1..]);
      PrependItem(levels, stack, Plain(b), rest[1..]);
      levels := levels[top := [Plain(b)] + levels[top]];
    }
  }

  // ----- Scanner and grammar agree

  /** The scan of a trimmed body. */
  predicate CoreAccepted(core: seq<Byte>) {
    && core != []
    && (core[0] == OPEN_BRACE || core[0] == OPEN_BRACKET)
    && Accepts([Closer(core[0] == OPEN_BRACE)], false, false, core[1..])
  }

  lemma CoreAcceptedIsContainer(core: seq<Byte>)
    ensures CoreAccepted(core) <==> IsContainer(core)
  {
    if CoreAccepted(core) {
      var brace := core[0] == OPEN_BRACE;
      var stack := [Closer(brace)];
      var levels := DeriveItems(stack, core[1..]);
      assert Unwind(levels[..0], stack[..0]) == [];
      assert core == Render(Nested(brace, levels[0]));
    }
    if IsContainer(core) {
      var brace, items :| AllWellFormed(items) && core == Render(Nested(brace, items));
      assert core[1..] == RenderAll(items) + [Closer(brace)];
      AcceptsThroughItems([Closer(brace)], items, [Closer(brace)]);
    }
  }

  /** A text that goes on after a complete container is not a container. */
  lemma NothingFollows(brace: bool, items: seq<Item>, more: seq<Byte>)
    requires AllWellFormed(items) && more != []
    ensures !IsContainer(Render(Nested(brace, items)) + more)
  {
    var core := Render(Nested(brace, items)) + more;
    assert core[1..] == RenderAll(items) + ([Closer(brace)] + more);
    AcceptsThroughItems([Closer(brace)], items, [Closer(brace)] + more);
    CoreAcceptedIsContainer(core);
  }

  /** Trimming is forced: wherever the whitespace is cut away, the same core is left to judge. */
  lemma TrimmedTextIsCore(body: seq<Byte>, start: nat, end: nat)
    requires start < end <= |body|
    requires AllSpace(body[..start]) && AllSpace(body[end..])
    requires !IsSpace(body[start]) && !IsSpace(body[end - 1])
    ensures IsContainerText(body) <==> IsContainer(body[start..end])
  {
    if IsContainer(body[start..end]) {
      assert Framed(body, body[..start], body[start..end], body[end..]);
    }
    forall left, core, right | Framed(body, left, core, right)
      ensures core == body[start..end]
    {
      var brace, items :| AllWellFormed(items) && core == Render(Nested(brace, items));
      var l, r := |left|, |left| + |core|;
      forall i | 0 <= i < l ensures IsSpace(body[i]) { assert body[i] == left[i]; }
      forall i | r <= i < |body| ensures IsSpace(body[i]) { assert body[i] == right[i - r]; }
      forall i | 0 <= i < start ensures IsSpace(body[i]) { assert body[i] == body[..start][i]; }
      forall i | end <= i < |body| ensures IsSpace(body[i]) { assert body[i] == body[end..][i - end]; }
      assert body[l] == core[0] && body[r - 1] == core[|core| - 1];
      assert l == start && r == end;
    }
  }

  lemma TextIsNotAllSpace(body: seq<Byte>)
    requires IsContainerText(body)
    ensures !AllSpace(body)
  {
    var left, core, right :| Framed(body, left, core, right);
    assert body[|left|] == core[0];
    assert !IsSpace(body[|left|]);
  }

  /** `is_single_json_container`: accepted are exactly the texts of the grammar. */
  method IsSingleJsonContainer(body: seq<Byte>) returns (r: bool)
    ensures r <==> IsContainerText(body)
  {
    var start, end := 0, |body|;
    while start < end && IsSpace(body[start])
      invariant 0 <= start <= end == |body|
      invariant AllSpace(body[..start])
    {
      start := start + 1;
    }
    while end > start && IsSpace(body[end - 1])
      invariant start <= end <= |body|
      invariant start < end ==> !IsSpace(body[start])
      invariant start == end ==> start == |body|
      invariant AllSpace(body[end..])
    {
      end := end - 1;
    }
    if start >= end {
      assert body[..start] == body;
      if IsContainerText(body) { TextIsNotAllSpace(body); }
      return false;
    }
    ghost var core := body[start..end];
    TrimmedTextIsCore(body, start, end);
    CoreAcceptedIsContainer(core);
    var stack: seq<Byte>;
    if body[start] == OPEN_BRACE {
      stack := [CLOSE_BRACE];
    } else if body[start] == OPEN_BRACKET {
      stack := [CLOSE_BRACKET];
    } else {
      return false;
    }
    var inString, escaped := false, false;
    var index := start + 1;
    assert core[1..] == body[index..end];
    while index < end
      invariant start < index <= end
      invariant escaped ==> inString
      invariant Accepts(stack, inString, escaped, body[index..end]) == CoreAccepted(core)
    {
      var byte := body[index];
      ghost var rest := body[index..end];
      assert rest[0] == byte && rest[1..] == body[index + 1..end];
      index := index + 1;
      if inString {
        if escaped {
          escaped := false;
        } else if byte == BACKSLASH {
          escaped := true;
        } else if byte == QUOTE {
          inString := false;
        }
        continue;
      }
      if byte == QUOTE {
        inString := true;
        continue;
      }
      if byte == OPEN_BRACE {
        stack := stack + [CLOSE_BRACE];
        continue;
      }
      if byte == OPEN_BRACKET {
        stack := stack + [CLOSE_BRACKET];
        continue;
      }
      if byte == CLOSE_BRACE || byte == CLOSE_BRACKET {
        if stack == [] {
          return false;
        }
        var expected := stack[|stack| - 1];
        stack := stack[..|stack| - 1];
        if byte != expected {
          return false;
        }
        if stack == [] {
          return index == end;
        }
      }
    }
    return false;
  }

  /** Two containers one after the other, with or without whitespace between, are never accepted. */
  lemma TwoContainersRejected(a: seq<Byte>, gap: seq<Byte>, b: seq<Byte>)
    requires IsContainer(a) && IsContainer(b) && AllSpace(gap)
    ensures !IsContainerText(a + gap + b)
  {
    var brace, items :| AllWellFormed(items) && a == Render(Nested(brace, items));
    var brace', items' :| AllWellFormed(items') && b == Render(Nested(brace', items'));
    var body := a + gap + b;
    assert body == a + (gap + b);
    assert body[0] == Opener(brace) && body[|body| - 1] == b[|b| - 1] == Closer(brace');
    NothingFollows(brace, items, gap + b);
    assert body[0..|body|] == body;
    TrimmedTextIsCore(body, 0, |body|);
  }

  // ----- Extraction of the first object

  datatype Cursor = Cursor(depth: int, inString: bool, escape: bool)

  /** One byte further; brackets are not looked at. */
  function Advance(c: Cursor, b: Byte): (c': Cursor) {
    if c.inString then
      if c.escape then c.(escape := false)
      else if b == BACKSLASH then c.(escape := true)
      else c.(inString := b != QUOTE)
    else if b == QUOTE then c.(inString := true)
    else if b == OPEN_BRACE then c.(depth := c.depth + 1)
    else if b == CLOSE_BRACE then c.(depth := c.depth - 1)
    else c
  }

  /** How many bytes it takes for a closing brace to bring the depth back to zero. */
  function ObjectLength(rest: seq<Byte>, c: Cursor): (n: Option<nat>)
    ensures n.Some? ==> 0 < n.value <= |rest|
    decreases |rest|
  {
    if rest == [] then None
    else if !c.inString && rest[0] == CLOSE_BRACE && c.depth == 1 then Some(1)
    else Plus(1, ObjectLength(rest[1..], Advance(c, rest[0])))
  }

  function Plus(k: nat, n: Option<nat>): (m: Option<nat>) {
    if n.Some? then Some(k + n.value) else None
  }

  lemma ObjectLengthStep(b: Byte, rest: seq<Byte>, c: Cursor)
    ensures ObjectLength([b] + rest, c)
            == if !c.inString && b == CLOSE_BRACE && c.depth == 1 then Some(1) else Plus(1, ObjectLength(rest, Advance(c, b)))
  {
    assert ([b] + rest)[1..] == rest;
  }

  lemma {:induction false} ObjectLengthString(chars: seq<StringChar>, rest: seq<Byte>, depth: int)
    requires forall c | c in chars :: WellFormedChar(c)
    ensures ObjectLength(RenderChars(chars) + [QUOTE] + rest, Cursor(depth, true, false))
            == Plus(|RenderChars(chars)| + 1, ObjectLength(rest, Cursor(depth, false, false)))
    decreases |chars|
  {
    hide ObjectLength;
    var s := RenderChars(chars) + [QUOTE] + rest;
    if chars == [] {
      assert s == [QUOTE] + rest;
      ObjectLengthStep(QUOTE, rest, Cursor(depth, true, false));
    } else {
      var tail := RenderChars(chars[1..]) + [QUOTE] + rest;
      ObjectLengthString(chars[1..], rest, depth);
      assert WellFormedChar(chars[0]);
      if chars[0].Raw? {
        assert s == [chars[0].b] + tail;
        ObjectLengthStep(chars[0].b, tail, Cursor(depth, true, false));
      } else {
        assert s == [BACKSLASH] + ([chars[0].b] + tail);
        ObjectLengthStep(BACKSLASH, [chars[0].b] + tail, Cursor(depth, true, false));
        ObjectLengthStep(chars[0].b, tail, Cursor(depth, true, true));
      }
    }
  }

  lemma {:induction false} ObjectLengthItem(item: Item, rest: seq<Byte>, depth: int)
    requires WellFormed(item) && depth >= 1
    ensures ObjectLength(Render(item) + rest, Cursor(depth, false, false))
            == Plus(|Render(item)|, ObjectLength(rest, Cursor(depth, false, false)))
    decreases item, 1
  {
    hide ObjectLength;
    var s := Render(item) + rest;
    var c := Cursor(depth, false, false);
    match item
    case Plain(b) =>
      ObjectLengthStep(b, rest, c);
    case Text(chars) =>
      assert s == [QUOTE] + (RenderChars(chars) + [QUOTE] + rest);
      ObjectLengthStep(QUOTE, RenderChars(chars) + [QUOTE] + rest, c);
      ObjectLengthString(chars, rest, depth);
    case Nested(brace, items) =>
      var inside := if brace then depth + 1 else depth;
      assert s == [Opener(brace)] + (RenderAll(items) + ([Closer(brace)] + rest));
      ObjectLengthStep(Opener(brace), RenderAll(items) + ([Closer(brace)] + rest), c);
      ObjectLengthItems(items, [Closer(brace)] + rest, inside);
      ObjectLengthStep(Closer(brace), rest, Cursor(inside, false, false));
  }

  lemma {:induction false} ObjectLengthItems(items: seq<Item>, rest: seq<Byte>, depth: int)
    requires AllWellFormed(items) && depth >= 1
    ensures ObjectLength(RenderAll(items) + rest, Cursor(depth, false, false))
            == Plus(|RenderAll(items)|, ObjectLength(rest, Cursor(depth, false, false)))
    decreases items, 0
  {
    if items == [] {
      assert RenderAll(items) + rest == rest;
    } else {
      assert RenderAll(items) + rest == Render(items[0]) + (RenderAll(items[1..]) + rest);
      ObjectLengthItem(items[0], RenderAll(items[1..]) + rest, depth);
      ObjectLengthItems(items[1..], rest, depth);
    }
  }

  /** `response.find(b"{")`, with the length standing for "not found". */
  function FirstBrace(s: seq<Byte>): (k: nat)
    ensures k <= |s| && OPEN_BRACE !in s[..k] && (k < |s| ==> s[k] == OPEN_BRACE)
  {
    if s == [] || s[0] == OPEN_BRACE then 0 else
    var k := FirstBrace(s[1..]);
    assert s[..k + 1] == [s[0]] + s[1..][..k];
    k + 1
  }

  /** From the first opening brace to where its depth is back at zero. */
  function Extract(response: seq<Byte>): (r: Option<seq<Byte>>) {
    var start := FirstBrace(response);
    var n := ObjectLength(response[start..], Cursor(0, false, false));
    if n.Some? then Some(response[start..start + n.value]) else None
  }

  /** `extract_json_bytes` */
  method ExtractJsonBytes(response: seq<Byte>) returns (r: Option<seq<Byte>>)
    ensures r == Extract(response)
  {
    var start := FirstBrace(response);
    if start == |response| {
      return None;
    }
    ghost var whole := ObjectLength(response[start..], Cursor(0, false, false));
    var depth, inString, escape := 0, false, false;
    var index := start;
    while index < |response|
      invariant start <= index <= |response|
      invariant whole == Plus(index - start, ObjectLength(response[index..], Cursor(depth, inString, escape)))
    {
      var byte := response[index];
      ghost var rest := response[index..];
      assert rest[0] == byte && rest[1..] == response[index + 1..];
      index := index + 1;
      if inString {
        if escape {
          escape := false;
        } else if byte == BACKSLASH {
          escape := true;
        } else if byte == QUOTE {
          inString := false;
        }
        continue;
      }
      if byte == QUOTE {
        inString := true;
      } else if byte == OPEN_BRACE {
        depth := depth + 1;
      } else if byte == CLOSE_BRACE {
        depth := depth - 1;
        if depth == 0 {
          return Some(response[start..index]);
        }
      }
    }
    return None;
  }

  /** An object is cut out whole: nothing after it matters, and nothing before it but an opening brace. */
  lemma ObjectIsExtracted(pre: seq<Byte>, items: seq<Item>, suffix: seq<Byte>)
    requires AllWellFormed(items) && OPEN_BRACE !in pre
    ensures Extract(pre + Render(Nested(true, items)) + suffix) == Some(Render(Nested(true, items)))
  {
    var found := Render(Nested(true, items));
    var response := pre + found + suffix;
    var start := FirstBrace(response);
    forall i | 0 <= i < start ensures response[i] != OPEN_BRACE { assert response[i] == response[..start][i]; }
    forall i | 0 <= i < |pre| ensures response[i] != OPEN_BRACE { assert response[i] == pre[i]; }
    assert response[|pre|] == OPEN_BRACE;
    assert start == |pre|;
    var s := response[start..];
    assert s == found + suffix;
    assert s[1..] == RenderAll(items) + ([CLOSE_BRACE] + suffix);
    ObjectLengthItems(items, [CLOSE_BRACE] + suffix, 1);
    assert response[start..start + |found|] == found;
  }

  lemma {:induction false} TooShortForObject(rest: seq<Byte>, c: Cursor, m: nat)
    requires ObjectLength(rest, c).Some? && m < ObjectLength(rest, c).value
    ensures ObjectLength(rest[..m], c) == None
    decreases |rest|
  {
    if m > 0 {
      TooShortForObject(rest[1..], Advance(c, rest[0]), m - 1);
      assert rest[..m][1..] == rest[1..][..m - 1];
    }
  }

  /** Without an opening brace there is nothing to extract. */
  lemma NothingWithoutBrace(response: seq<Byte>)
    requires OPEN_BRACE !in response
    ensures Extract(response) == None
  {
    assert FirstBrace(response) == |response|;
    assert response[|response|..] == [];
  }

  /** Nor is there in an object that is not complete. */
  lemma NothingBeforeTheEnd(pre: seq<Byte>, items: seq<Item>, m: nat)
    requires AllWellFormed(items) && OPEN_BRACE !in pre && m < |Render(Nested(true, items))|
    ensures Extract(pre + Render(Nested(true, items))[..m]) == None
  {
    var whole := Render(Nested(true, items));
    var response, start := pre + whole[..m], FirstBrace(pre + whole[..m]);
    hide Render;
    ObjectIsExtracted([], items, []);
    assert [] + whole + [] == whole;
    BraceAt(pre, whole[..m]);
    if m == 0 {
      assert whole[..m] == [] && response[start..] == [];
    } else {
      assert whole[0] == OPEN_BRACE by { FirstOfObject(items); }
      assert start == |pre| && response[start..] == whole[..m];
      assert FirstBrace(whole) == 0 && whole[0..] == whole;
      TooShortForObject(whole, Cursor(0, false, false), m);
    }
  }

  lemma FirstOfObject(items: seq<Item>)
    ensures |Render(Nested(true, items))| > 0 && Render(Nested(true, items))[0] == OPEN_BRACE
  {
  }

  lemma BraceAt(pre: seq<Byte>, rest: seq<Byte>)
    requires OPEN_BRACE !in pre
    ensures FirstBrace(pre + rest) == |pre| + FirstBrace(rest)
    decreases |pre|
  {
    if pre == [] {
      assert pre + rest == rest;
    } else {
      assert (pre + rest)[1..] == pre[1..] + rest;
      BraceAt(pre[1..], rest);
    }
  }
}
