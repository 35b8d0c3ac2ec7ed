/** shared/routes.ts: the endpoint's input and response schemas, and
    `buildUrl`, which substitutes `:key` placeholders into a path. */
module SharedRoutes {

  import opened Wrappers
  import opened Strings
  import opened JsonValues

  /** The input schema (line 9): `q` must be a string of length at least 1. */
  predicate QueryValid(q: Option<string>) {
    q.Some? && |q.value| >= 1
  }

  predicate StringField(members: seq<(string, Json)>, key: string) {
    Lookup(members, key).Some? && Lookup(members, key).value.JString?
  }

  predicate NumberField(members: seq<(string, Json)>, key: string) {
    Lookup(members, key).Some? && Lookup(members, key).value.JNumber?
  }

  /** The 200 schema (lines 12-17); `response` accepts anything. */
  predicate Accepts200(body: Json) {
    body.JObject? && StringField(body.members, "Join") &&
    NumberField(body.members, "status") && StringField(body.members, "successful")
  }

  /** The 400 schema (lines 18-22). */
  predicate Accepts400(body: Json) {
    body.JObject? && StringField(body.members, "error") &&
    NumberField(body.members, "status") && StringField(body.members, "successful")
  }

  /** The 500 schema (lines 23-28); `raw` may be absent. */
  predicate Accepts500(body: Json) {
    body.JObject? && StringField(body.members, "error") &&
    (Lookup(body.members, "raw").None? || StringField(body.members, "raw")) &&
    NumberField(body.members, "status") && StringField(body.members, "successful")
  }

  /** A value of `Record<string, string | number>`; numbers are integers
      here. */
  datatype ParamValue = Text(s: string) | Number(n: int)

  /** `String(value)`. */
  function ParamText(v: ParamValue): string {
    match v
    case Text(s) => s
    case Number(n) => IntegerText(n)
  }

  /** ECMAScript's GetSubstitution for a string pattern, which has no
      capture groups: in the replacement, `$$` stands for `$`, `$&` for the
      matched text, `` $` `` for the text before the match, `$'` for the
      text after it; any other `$` is literal. */
  function Expand(template: string, matched: string, before: string, after: string): string
    decreases |template|
  {
    if template == [] then []
    else if template[0] == '$' && |template| >= 2 then
      if template[1] == '$' then "$" + Expand(template[2..], matched, before, after)
      else if template[1] == '&' then matched + Expand(template[2..], matched, before, after)
      else if template[1] == '`' then before + Expand(template[2..], matched, before, after)
      else if template[1] == '\'' then after + Expand(template[2..], matched, before, after)
      else "$" + Expand(template[1..], matched, before, after)
    else [template[0]] + Expand(template[1..], matched, before, after)
  }

  /** A replacement without `$` is inserted literally. */
  lemma {:induction false} ExpandLiteral(template: string, matched: string, before: string, after: string)
    requires '$' !in template
    ensures Expand(template, matched, before, after) == template
    decreases |template|
  {
    if template != [] {
      assert template[0] != '$';
      assert '$' !in template[1..] by {
        assert forall c :: c in template[1..] ==> c in template;
      }
      ExpandLiteral(template[1..], matched, before, after);
    }
  }

  /** `s.replace(pat, replacement)` for a string `pat`: only the first
      occurrence is replaced. */
  function ReplaceFirst(s: string, pat: string, replacement: string): string {
    match IndexOf(s, pat, 0)
    case None => s
    case Some(i) =>
      s[..i] + Expand(replacement, pat, s[..i], s[i + |pat|..]) + s[i + |pat|..]
  }

  /** One step of the `forEach` (lines 38-40). */
  function Substitute(url: string, entry: (string, ParamValue)): string {
    var pat := ":" + entry.0;
    if Contains(url, pat) then ReplaceFirst(url, pat, ParamText(entry.1)) else url
  }

  /** The steps in entry order, each on the previous step's result. */
  function SubstituteAll(url: string, entries: seq<(string, ParamValue)>): string
    decreases |entries|
  {
    if entries == [] then url
    else SubstituteAll(Substitute(url, entries[0]), entries[1..])
  }

  /** `buildUrl` (lines 34-44); `params` lists `Object.entries(params)` in
      order. */
  method BuildUrl(path: string, params: Option<seq<(string, ParamValue)>>) returns (url: string)
    ensures params.None? ==> url == path
    ensures params.Some? ==> url == SubstituteAll(path, params.value)
  {
    url := path;
    if params.Some? {
      var entries := params.value;
      var i := 0;
      while i < |entries|
        invariant 0 <= i <= |entries|
        invariant SubstituteAll(url, entries[i..]) == SubstituteAll(path, entries)
      {
        assert entries[i..][1..] == entries[i + 1..];
        var (key, value) := entries[i];
        if Contains(url, ":" + key) {
          url := ReplaceFirst(url, ":" + key, ParamText(value));
        }
        i := i + 1;
      }
    }
  }

  /** A key whose placeholder does not occur leaves the url as it is. */
  lemma AbsentPlaceholder(url: string, key: string, value: ParamValue)
    requires !Contains(url, ":" + key)
    ensures Substitute(url, (key, value)) == url
  {
  }

  /** When the placeholder occurs, its first occurrence, and nothing else,
      is replaced by `String(value)` (a value without `$`); any later
      occurrence stays in the unchanged tail. */
  lemma FirstPlaceholderReplaced(url: string, key: string, value: ParamValue, i: nat)
    requires OccursAt(url, ":" + key, i)
    requires forall j :: 0 <= j < i ==> !OccursAt(url, ":" + key, j)
    requires '$' !in ParamText(value)
    ensures Substitute(url, (key, value)) == url[..i] + ParamText(value) + url[i + |key| + 1..]
  {
    var pat := ":" + key;
    assert IndexOf(url, pat, 0) == Some(i) by {
      var r := IndexOf(url, pat, 0);
    }
    ExpandLiteral(ParamText(value), pat, url[..i], url[i + |pat|..]);
  }

  /** A path without `:` comes back unchanged whatever the params. */
  lemma {:induction false} NoColonUnchanged(path: string, entries: seq<(string, ParamValue)>)
    requires ':' !in path
    ensures SubstituteAll(path, entries) == path
    decreases |entries|
  {
    if entries != [] {
      var pat := ":" + entries[0].0;
      forall j ensures !OccursAt(path, pat, j) {
        if 0 <= j && j + |pat| <= |path| {
          assert path[j..j + |pat|][0] == path[j];
        }
      }
      NoColonUnchanged(path, entries[1..]);
    }
  }

  /** Substitution runs through the entries in order: the entries after a
      prefix rewrite what the prefix produced. */
  lemma {:induction false} SubstituteAllAppend(url: string, first: seq<(string, ParamValue)>, rest: seq<(string, ParamValue)>)
    ensures SubstituteAll(url, first + rest) == SubstituteAll(SubstituteAll(url, first), rest)
    decreases |first|
  {
    if first == [] {
      assert first + rest == rest;
    } else {
      assert (first + rest)[1..] == first[1..] + rest;
      SubstituteAllAppend(Substitute(url, first[0]), first[1..], rest);
    }
  }

  /** A value that holds another key's placeholder is rewritten by that
      later key. */
  lemma ChainedSubstitution()
    ensures SubstituteAll("/:a", [("a", Text(":b")), ("b", Text("7"))]) == "/7"
  {
    assert "/:a"[0..2][0] == '/';
    assert !OccursAt("/:a", ":a", 0);
    FirstPlaceholderReplaced("/:a", "a", Text(":b"), 1);
    assert "/:a"[..1] + ":b" + "/:a"[3..] == "/:b";
    assert "/:b"[0..2][0] == '/';
    assert !OccursAt("/:b", ":b", 0);
    FirstPlaceholderReplaced("/:b", "b", Text("7"), 1);
    assert "/:b"[..1] + "7" + "/:b"[3..] == "/7";
    var es := [("a", Text(":b")), ("b", Text("7"))];
    assert es[1..][1..] == [];
  }

  /** Placeholders match as plain substrings: `:id` matches the start of
      `:idx`. */
  lemma PlaceholderPrefixMatch()
    ensures Substitute("/:idx", ("id", Number(5))) == "/5x"
  {
    assert "/:idx"[0..3][0] == '/';
    assert ParamText(Number(5)) == "5";
    FirstPlaceholderReplaced("/:idx", "id", Number(5), 1);
    assert "/:idx"[..1] + "5" + "/:idx"[4..] == "/5x";
  }

  /** `$&` in a value re-inserts the matched placeholder. */
  lemma DollarPatternInValue()
    ensures Substitute("/:id", ("id", Text("$&!"))) == "/:id!"
  {
    var url := "/:id";
    assert url[0..3][0] == '/';
    assert OccursAt(url, ":id", 1);
    assert IndexOf(url, ":id", 0) == Some(1);
    assert Expand("!", ":id", "/", "") == "!" by {
      ExpandLiteral("!", ":id", "/", "");
    }
    assert Expand("$&!", ":id", url[..1], url[4..]) == ":id!";
  }
}
