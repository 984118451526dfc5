/** The XML report as events: the writer (`xml`) and the SAX reader (`file_object_reader`) with their stacks of tags. */
module Dfxml {
  import opened Options
  import opened XmlText

  type Attributes = seq<(string, string)>

  /** What an XML parser reports for the text that was written. */
  datatype Event = StartTag(name: string, attrs: Attributes) | EndTag(name: string) | Chars(text: string)

  // ---------------------------------------------------------------- what the parser accepts

  /** No control characters that XML does not allow. */
  predicate Acceptable(e: Event) {
    match e
    case StartTag(_, attrs) => forall a | a in attrs :: AllXml(a.1)
    case EndTag(_) => true
    case Chars(text) => AllXml(text)
  }

  predicate AllAcceptable(events: seq<Event>) {
    forall e | e in events :: Acceptable(e)
  }

  /** The parser reports what comes before the first text that it rejects. */
  function Parsed(events: seq<Event>): (p: seq<Event>)
    ensures p <= events && AllAcceptable(p)
  {
    if events == [] then []
    else
      var p := Parsed(events[..|events| - 1]);
      if |p| == |events| - 1 && Acceptable(events[|events| - 1]) then events else p
  }

  /** It reports everything exactly if everything is acceptable. */
  lemma {:induction false} AllIsParsed(events: seq<Event>)
    ensures Parsed(events) == events <==> AllAcceptable(events)
  {
    if events != [] && AllAcceptable(events) {
      forall e | e in events[..|events| - 1] ensures Acceptable(e) { assert e in events; }
      AllIsParsed(events[..|events| - 1]);
      assert events[|events| - 1] in events;
    }
  }

  /** What is behind a rejected event does not matter. */
  lemma {:induction false} ParsedUpTo(events: seq<Event>, i: nat)
    requires i < |events| && AllAcceptable(events[..i]) && !Acceptable(events[i])
    ensures Parsed(events) == events[..i]
  {
    var init := events[..|events| - 1];
    if i < |init| {
      assert init[..i] == events[..i];
      ParsedUpTo(init, i);
    } else {
      AllIsParsed(init);
    }
  }

  lemma AcceptableParts(a: seq<Event>, b: seq<Event>)
    ensures AllAcceptable(a + b) <==> AllAcceptable(a) && AllAcceptable(b)
  {
    hide Acceptable;
    if AllAcceptable(a + b) {
      forall e | e in a ensures Acceptable(e) { assert e in a + b; }
      forall e | e in b ensures Acceptable(e) { assert e in a + b; }
    }
  }

  // ---------------------------------------------------------------- nesting

  /** The tags that are open after a list of events; none if an end tag is not that of the innermost open tag. */
  function Open(events: seq<Event>): Option<seq<string>> {
    if events == [] then Some([])
    else
      var e, before := events[|events| - 1], Open(events[..|events| - 1]);
      if before.None? then None
      else if e.StartTag? then Some(before.value + [e.name])
      else if e.Chars? then before
      else if before.value != [] && before.value[|before.value| - 1] == e.name then
        Some(before.value[..|before.value| - 1])
      else None
  }

  // ---------------------------------------------------------------- the writer

  function Spaces(n: nat): string {
    seq(2 * n, _ => ' ')
  }

  function Pushed(depth: nat, tag: string, attrs: Attributes): seq<Event> {
    [Chars(Spaces(depth)), StartTag(tag, attrs), Chars("\n")]
  }

  function Popped(depth: nat, tag: string): seq<Event> {
    [Chars(Spaces(depth)), EndTag(tag), Chars("\n")]
  }

  /** An element without children: an empty one is a start tag that ends itself. */
  function Leaf(depth: nat, tag: string, attrs: Attributes, text: string): seq<Event> {
    if text == "" then [Chars(Spaces(depth)), StartTag(tag, attrs), EndTag(tag), Chars("\n")]
    else [Chars(Spaces(depth)), StartTag(tag, attrs), Chars(text), EndTag(tag), Chars("\n")]
  }

  lemma OpenAfterPush(events: seq<Event>, depth: nat, tag: string, attrs: Attributes)
    requires Open(events).Some?
    ensures Open(events + Pushed(depth, tag, attrs)) == Some(Open(events).value + [tag])
  {
    var p := Pushed(depth, tag, attrs);
    assert events + p == events + [p[0]] + [p[1]] + [p[2]];
    OpenAfter(events, p[0]);
    OpenAfter(events + [p[0]], p[1]);
    OpenAfter(events + [p[0]] + [p[1]], p[2]);
  }

  lemma OpenAfterPop(events: seq<Event>, depth: nat, tag: string, rest: seq<string>)
    requires Open(events) == Some(rest + [tag])
    ensures Open(events + Popped(depth, tag)) == Some(rest)
  {
    var p := Popped(depth, tag);
    assert events + p == events + [p[0]] + [p[1]] + [p[2]];
    OpenAfter(events, p[0]);
    OpenAfter(events + [p[0]], p[1]);
    OpenAfter(events + [p[0]] + [p[1]], p[2]);
    assert (rest + [tag])[..|rest|] == rest;
  }

  lemma OpenAfterLeaf(events: seq<Event>, depth: nat, tag: string, attrs: Attributes, text: string)
    requires Open(events).Some?
    ensures Open(events + Leaf(depth, tag, attrs, text)) == Open(events)
  {
    var tags := Open(events).value;
    assert (tags + [tag])[..|tags|] == tags;
    var s, start, end, nl := Chars(Spaces(depth)), StartTag(tag, attrs), EndTag(tag), Chars("\n");
    OpenAfter(events, s);
    OpenAfter(events + [s], start);
    if text == "" {
      assert events + Leaf(depth, tag, attrs, text) == events + [s] + [start] + [end] + [nl];
      OpenAfter(events + [s] + [start], end);
      OpenAfter(events + [s] + [start] + [end], nl);
    } else {
      assert events + Leaf(depth, tag, attrs, text) == events + [s] + [start] + [Chars(text)] + [end] + [nl];
      OpenAfter(events + [s] + [start], Chars(text));
      OpenAfter(events + [s] + [start] + [Chars(text)], end);
      OpenAfter(events + [s] + [start] + [Chars(text)] + [end], nl);
    }
  }

  lemma OpenAfter(events: seq<Event>, e: Event)
    ensures
      var before := Open(events);
      Open(events + [e]) ==
        if before.None? then None
        else if e.StartTag? then Some(before.value + [e.name])
        else if e.Chars? then before
        else if before.value != [] && before.value[|before.value| - 1] == e.name then
          Some(before.value[..|before.value| - 1])
        else None
  {
    assert (events + [e])[..|events|] == events;
  }

  lemma TextIsEncoded(value: string)
    ensures Unescape(Escape(value)) == PercentEncoded(value)
    ensures PercentEncoded(value) == "" <==> value == ""
  {
    EscapeIsUnescaped(value);
    PercentEncodedGrows(value);
  }

  class XmlWriter {
    var tagStack: seq<string>
    /** Everything written so far. */
    var output: seq<Event>

    /** What was written is well nested, and the stack holds the tags that are open. */
    ghost predicate Valid()
      reads this
    {
      Open(output) == Some(tagStack)
    }

    constructor ()
      ensures Valid() && tagStack == [] && output == []
    {
      tagStack, output := [], [];
    }

    method Push(tag: string, attrs: Attributes)
      requires Valid()
      modifies this
      ensures Valid() && tagStack == old(tagStack) + [tag]
      ensures output == old(output) + Pushed(|old(tagStack)|, tag, attrs)
    {
      OpenAfterPush(output, |tagStack|, tag, attrs);
      output := output + [Chars(Spaces(|tagStack|))];
      tagStack := tagStack + [tag];
      output := output + [StartTag(tag, attrs)] + [Chars("\n")];
      assert output == old(output) + Pushed(|old(tagStack)|, tag, attrs);
    }

    method Pop()
      requires Valid() && tagStack != []
      modifies this
      ensures Valid() && tagStack == old(tagStack)[..|old(tagStack)| - 1]
      ensures output == old(output) + Popped(|old(tagStack)| - 1, old(tagStack)[|old(tagStack)| - 1])
    {
      var tag := tagStack[|tagStack| - 1];
      assert tagStack == tagStack[..|tagStack| - 1] + [tag];
      OpenAfterPop(output, |tagStack| - 1, tag, tagStack[..|tagStack| - 1]);
      tagStack := tagStack[..|tagStack| - 1];
      output := output + [Chars(Spaces(|tagStack|))] + [EndTag(tag)] + [Chars("\n")];
      assert output == old(output) + Popped(|old(tagStack)| - 1, tag);
    }

    /** `xmlout`; a parser sees an escaped value with its entities resolved. */
    method XmlOut(tag: string, value: string, attrs: Attributes, escapeValue: bool)
      requires Valid()
      modifies `output
      ensures Valid()
      ensures output == old(output) + Leaf(|tagStack|, tag, attrs, if escapeValue then PercentEncoded(value) else value)
    {
      hide Escape, Unescape, PercentEncoded, Open;
      var text := if escapeValue then Unescape(Escape(value)) else value;
      TextIsEncoded(value);
      OpenAfterLeaf(output, |tagStack|, tag, attrs, text);
      ghost var written := Leaf(|tagStack|, tag, attrs, text);
      output := output + [Chars(Spaces(|tagStack|))];
      if value == "" {
        output := output + [StartTag(tag, attrs), EndTag(tag)];
      } else {
        output := output + [StartTag(tag, attrs)] + [Chars(text)] + [EndTag(tag)];
      }
      output := output + [Chars("\n")];
      assert output == old(output) + written;
    }
  }
}
