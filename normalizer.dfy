/** The upstream response normaliser of server/routes.ts lines 97-138:
    `parseIfString`, the descent into `choices[0].message.content`, and the
    one-level unwrapping of the fields of an object or array result. */
module Normalizer {

  import opened Wrappers
  import opened Strings
  import opened JsonValues
  import opened Fences

  /** The text `parseIfString` holds after line 113: trimmed, every match
      of the fence pattern replaced by its interior, trimmed again. */
  function Clean(s: string): string {
    Trim(StripFences(Trim(s)))
  }

  /** The gate of line 115: starts with `{` and ends with `}`, or starts
      with `[` and ends with `]`. */
  predicate BracketShaped(c: string) {
    |c| > 0 && ((c[0] == '{' && c[|c| - 1] == '}') || (c[0] == '[' && c[|c| - 1] == ']'))
  }

  /** A parser that, when it accepts text starting with `{`, gives an
      object, and when it accepts text starting with `[`, gives an array,
      as `JSON.parse` does. */
  ghost predicate ShapeFaithful(parse: Parser) {
    forall t :: parse(t).Some? && |t| > 0 ==>
      (t[0] == '{' ==> parse(t).value.JObject?) && (t[0] == '[' ==> parse(t).value.JArray?)
  }

  /** `parseIfString` (lines 108-123). It never fails: the result is the
      argument itself when that is not a string; for a string, it is what
      the parser makes of the cleaned text when that text passes the gate
      and parses, and the cleaned text itself otherwise. */
  function ParseIfString(v: Json, parse: Parser): (r: Json)
    ensures !v.JString? ==> r == v
    ensures v.JString? && BracketShaped(Clean(v.s)) && parse(Clean(v.s)).Some? ==>
      r == parse(Clean(v.s)).value
    ensures v.JString? && !BracketShaped(Clean(v.s)) ==> r == JString(Clean(v.s))
    ensures v.JString? && parse(Clean(v.s)).None? ==> r == JString(Clean(v.s))
  {
    match v
    case JString(s) =>
      var c := Clean(s);
      if BracketShaped(c) then
        match parse(c)
        case Some(w) => w
        case None => JString(c)
      else JString(c)
    case _ => v
  }

  /** A string without any "```" cleans to its trim (line 113 changes
      nothing further). */
  lemma CleanWithoutFence(s: string)
    requires NoFence(s)
    ensures Clean(s) == Trim(s)
  {
    TrimIsSlice(s);
    NoFenceSlice(s, TrimOffset(s), TrimOffset(s) + |Trim(s)|);
    NoFenceUnchanged(Trim(s));
    TrimIdempotent(s);
  }

  /** A cleaned string holds nothing the fence pattern matches. */
  lemma CleanPairFree(s: string)
    ensures PairFree(Clean(s))
  {
    StripFencesPairFree(Trim(s));
    TrimPairFree(StripFences(Trim(s)));
  }

  /** Trimming cannot create a match. */
  lemma TrimPairFree(x: string)
    requires PairFree(x)
    ensures PairFree(Trim(x))
  {
    var lo, hi := TrimOffset(x), TrimOffset(x) + |Trim(x)|;
    assert hi <= |x| && Trim(x) == x[lo..hi] by {
      TrimIsSlice(x);
    }
    PairFreeSlice(x, lo, hi);
  }

  /** A cleaned string is trimmed and cleans to itself. */
  lemma CleanStable(s: string)
    ensures Trim(Clean(s)) == Clean(s)
    ensures Clean(Clean(s)) == Clean(s)
  {
    var c := Clean(s);
    TrimIdempotent(StripFences(Trim(s)));
    CleanPairFree(s);
    StripFencesFixedIff(c);
  }

  /** The parser is consulted only when the cleaned text passes the gate:
      off the gate, any two parsers give the same result, the cleaned
      string. */
  lemma ParseOnlyBehindGate(s: string, p1: Parser, p2: Parser)
    requires !BracketShaped(Clean(s))
    ensures ParseIfString(JString(s), p1) == ParseIfString(JString(s), p2) == JString(Clean(s))
  {
  }

  /** A trimmed string with no "```" that is off the gate or that the
      parser rejects comes back unchanged. */
  lemma ParseIfStringFixedPoint(s: string, parse: Parser)
    requires Trim(s) == s && NoFence(s)
    requires !BracketShaped(s) || parse(s).None?
    ensures ParseIfString(JString(s), parse) == JString(s)
  {
    CleanWithoutFence(s);
  }

  /** Applying `parseIfString` to its own result changes nothing. */
  lemma ParseIfStringIdempotent(v: Json, parse: Parser)
    requires ShapeFaithful(parse)
    ensures ParseIfString(ParseIfString(v, parse), parse) == ParseIfString(v, parse)
  {
    if v.JString? {
      var c := Clean(v.s);
      CleanStable(v.s);
      var r := ParseIfString(v, parse);
      if BracketShaped(c) && parse(c).Some? {
        assert r == parse(c).value;
        assert r.JObject? || r.JArray?;
      } else {
        assert r == JString(c);
        assert Clean(r.s) == c;
      }
    }
  }

  /** One extra level of unwrapping (lines 129-133): an object keeps its
      keys, their order and their number, an array its length; each direct
      field becomes `parseIfString` of its old value, so a non-string field
      is left as it is, nested values included; anything else is
      returned unchanged. */
  function UnwrapFields(v: Json, parse: Parser): (r: Json)
    ensures v.JObject? <==> r.JObject?
    ensures v.JArray? <==> r.JArray?
    ensures v.JObject? ==> (|r.members| == |v.members| &&
      forall i :: 0 <= i < |v.members| ==>
        r.members[i].0 == v.members[i].0 && r.members[i].1 == ParseIfString(v.members[i].1, parse))
    ensures v.JObject? ==> forall i :: 0 <= i < |v.members| && !v.members[i].1.JString? ==>
      r.members[i] == v.members[i]
    ensures v.JArray? ==> (|r.elems| == |v.elems| &&
      forall i :: 0 <= i < |v.elems| ==> r.elems[i] == ParseIfString(v.elems[i], parse))
    ensures v.JArray? ==> forall i :: 0 <= i < |v.elems| && !v.elems[i].JString? ==>
      r.elems[i] == v.elems[i]
    ensures !v.JObject? && !v.JArray? ==> r == v
  {
    match v
    case JObject(ms) =>
      JObject(seq(|ms|, i requires 0 <= i < |ms| => (ms[i].0, ParseIfString(ms[i].1, parse))))
    case JArray(es) =>
      JArray(seq(|es|, i requires 0 <= i < |es| => ParseIfString(es[i], parse)))
    case _ => v
  }

  /** A second round of field unwrapping changes nothing. */
  lemma UnwrapFieldsIdempotent(v: Json, parse: Parser)
    requires ShapeFaithful(parse)
    ensures UnwrapFields(UnwrapFields(v, parse), parse) == UnwrapFields(v, parse)
  {
    var w := UnwrapFields(v, parse);
    var ww := UnwrapFields(w, parse);
    if v.JObject? {
      forall i | 0 <= i < |v.members| ensures ww.members[i] == w.members[i] {
        ParseIfStringIdempotent(v.members[i].1, parse);
      }
      assert ww.members == w.members;
    } else if v.JArray? {
      forall i | 0 <= i < |v.elems| ensures ww.elems[i] == w.elems[i] {
        ParseIfStringIdempotent(v.elems[i], parse);
      }
      assert ww.elems == w.elems;
    }
  }

  /** `jsonResponse?.choices?.[0]?.message` (line 101). */
  function ChatMessage(outer: Json): Option<Json> {
    Get(At0(Get(Some(outer), "choices")), "message")
  }

  /** Lines 104-106: an object with a truthy `content` is replaced by it. */
  function Descend(ai: Option<Json>): Option<Json> {
    if ai.Some? && Truthy(ai) && IsObjectType(ai.value) && Truthy(Get(ai, "content"))
    then Get(ai, "content")
    else ai
  }

  /** The value the handler answers with for upstream body `text`
      (lines 97-138). */
  function Normalized(text: string, parse: Parser): Json {
    match parse(text)
    case None => JString(text)
    case Some(outer) =>
      var ai := Descend(ChatMessage(outer));
      UnwrapFields(ParseIfString(if Truthy(ai) then ai.value else JString(text), parse), parse)
  }

  /** Lines 97-138 as the handler runs them: `ai` and `processed` are
      reassigned, and the fields of an object or array result are rewritten
      one by one. */
  method NormalizeBody(text: string, parse: Parser) returns (ashlynn: Json)
    ensures ashlynn == Normalized(text, parse)
  {
    var jsonResponse := parse(text);
    if jsonResponse.None? {
      ashlynn := JString(text);
      return;
    }
    var ai := ChatMessage(jsonResponse.value);
    if Truthy(ai) && IsObjectType(ai.value) && Truthy(Get(ai, "content")) {
      ai := Get(ai, "content");
    }
    var processed := ParseIfString(if Truthy(ai) then ai.value else JString(text), parse);
    if processed.JObject? {
      var members := UnwrapMembers(processed.members, parse);
      processed := JObject(members);
    } else if processed.JArray? {
      var elems := UnwrapElems(processed.elems, parse);
      processed := JArray(elems);
    }
    ashlynn := processed;
  }

  /** The `for…in` of lines 129-133 over an object: each member's value is
      replaced by `parseIfString` of it, in place, one member at a time. */
  method UnwrapMembers(ms: seq<(string, Json)>, parse: Parser) returns (members: seq<(string, Json)>)
    ensures members == UnwrapFields(JObject(ms), parse).members
  {
    members := ms;
    var i := 0;
    while i < |members|
      invariant 0 <= i <= |members| == |ms|
      invariant forall m :: 0 <= m < i ==> members[m] == (ms[m].0, ParseIfString(ms[m].1, parse))
      invariant forall m :: i <= m < |members| ==> members[m] == ms[m]
    {
      members := members[i := (members[i].0, ParseIfString(members[i].1, parse))];
      i := i + 1;
    }
  }

  /** The same loop over an array's indices. */
  method UnwrapElems(es: seq<Json>, parse: Parser) returns (elems: seq<Json>)
    ensures elems == UnwrapFields(JArray(es), parse).elems
  {
    elems := es;
    var i := 0;
    while i < |elems|
      invariant 0 <= i <= |elems| == |es|
      invariant forall m :: 0 <= m < i ==> elems[m] == ParseIfString(es[m], parse)
      invariant forall m :: i <= m < |elems| ==> elems[m] == es[m]
    {
      elems := elems[i := ParseIfString(elems[i], parse)];
      i := i + 1;
    }
  }

  /** A body the parser rejects is answered verbatim: not trimmed, no
      fence removed. */
  lemma InvalidBodyVerbatim(text: string, parse: Parser)
    requires parse(text).None?
    ensures Normalized(text, parse) == JString(text)
  {
  }

  /** A chat-completion body, an object whose `choices` is a non-empty
      array whose first element is an object with a `message` object, is
      answered with that message's `content`, normalised, when that is
      truthy (lines 101-106). Other members of the body, of the choice and
      of the message, and further choices, play no part. */
  lemma CompletionContent(text: string, parse: Parser, om: seq<(string, Json)>, cs: seq<Json>,
                          cm: seq<(string, Json)>, msg: seq<(string, Json)>, c: Json)
    requires parse(text) == Some(JObject(om)) && Lookup(om, "choices") == Some(JArray(cs))
    requires |cs| > 0 && cs[0] == JObject(cm) && Lookup(cm, "message") == Some(JObject(msg))
    requires Lookup(msg, "content") == Some(c) && Truthy(Some(c))
    ensures Normalized(text, parse) == UnwrapFields(ParseIfString(c, parse), parse)
  {
    FirstChoiceMessage(om, cs, cm, msg);
    assert Descend(Some(JObject(msg))) == Some(c);
  }

  /** The usual completion body `{"id":"x","choices":[{"index":0,"message":
      {"role":"assistant","content":c}}]}` is answered with `c`, normalised,
      when `c` is truthy. */
  lemma CompletionExample(text: string, parse: Parser, c: Json)
    requires Truthy(Some(c))
    requires parse(text) == Some(JObject([("id", JString("x")), ("choices", JArray([JObject([
      ("index", JNumber(0.0)),
      ("message", JObject([("role", JString("assistant")), ("content", c)]))])]))]))
    ensures Normalized(text, parse) == UnwrapFields(ParseIfString(c, parse), parse)
  {
    var msg := [("role", JString("assistant")), ("content", c)];
    var cm := [("index", JNumber(0.0)), ("message", JObject(msg))];
    var om := [("id", JString("x")), ("choices", JArray([JObject(cm)]))];
    LookupAt(om, "choices", 1);
    LookupAt(cm, "message", 1);
    LookupAt(msg, "content", 1);
    CompletionContent(text, parse, om, [JObject(cm)], cm, msg, c);
  }

  /** When the parsed body yields no truthy candidate, the raw text itself
      goes through `parseIfString` (line 126). */
  lemma FalsyCandidateUsesText(text: string, parse: Parser, outer: Json)
    requires parse(text) == Some(outer)
    requires !Truthy(Descend(ChatMessage(outer)))
    ensures Normalized(text, parse) == UnwrapFields(ParseIfString(JString(text), parse), parse)
  {
  }

  /** A message object whose `content` is missing or falsy is itself the
      candidate, whatever else the body holds. */
  lemma MessageWithoutContent(text: string, parse: Parser, om: seq<(string, Json)>, cs: seq<Json>,
                              cm: seq<(string, Json)>, msg: seq<(string, Json)>)
    requires parse(text) == Some(JObject(om)) && Lookup(om, "choices") == Some(JArray(cs))
    requires |cs| > 0 && cs[0] == JObject(cm) && Lookup(cm, "message") == Some(JObject(msg))
    requires !Truthy(Lookup(msg, "content"))
    ensures Normalized(text, parse) == UnwrapFields(JObject(msg), parse)
  {
    FirstChoiceMessage(om, cs, cm, msg);
    assert Descend(Some(JObject(msg))) == Some(JObject(msg));
  }

  /** The first choice's `message` is what line 101 reaches. */
  lemma FirstChoiceMessage(om: seq<(string, Json)>, cs: seq<Json>, cm: seq<(string, Json)>, msg: seq<(string, Json)>)
    requires Lookup(om, "choices") == Some(JArray(cs))
    requires |cs| > 0 && cs[0] == JObject(cm) && Lookup(cm, "message") == Some(JObject(msg))
    ensures ChatMessage(JObject(om)) == Some(JObject(msg))
  {
  }

  /** The answer is stable: one more round of field unwrapping (or of
      `parseIfString` on any field) changes nothing. */
  lemma NormalizedStable(text: string, parse: Parser)
    requires ShapeFaithful(parse)
    ensures UnwrapFields(Normalized(text, parse), parse) == Normalized(text, parse)
  {
    match parse(text)
    case None =>
    case Some(outer) =>
      var ai := Descend(ChatMessage(outer));
      UnwrapFieldsIdempotent(ParseIfString(if Truthy(ai) then ai.value else JString(text), parse), parse);
  }
}
