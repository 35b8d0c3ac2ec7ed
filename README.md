# P-Z Group Guardian chat proxy: a Dafny model of its core

The repository is a small web chat whose backend exposes one endpoint,
`GET /api/generate?q=…`. The handler checks `q`, builds a signed payload for
a third-party chat-completion service, calls it, and turns whatever comes back
into one JSON envelope for the browser. This project models and proves the
parts of that path that are logic rather than I/O:

- **the handler's decisions** (`server/routes.ts`): the missing-`q` guard,
  the upstream payload (message order, `time`, `pass = null`, the text that
  is signed), and the choice between the 200, 400 and 500 responses;
- **the response normaliser** (`server/routes.ts` lines 97-138):
  `parseIfString`, with its trim, its fence-stripping regular expression
  (written here as an explicit scanner) and its parse gate; the descent into
  `choices[0].message.content`; and the one-level unwrapping of the fields of
  an object or array result;
- **`shared/routes.ts`**: `buildUrl`, which substitutes `:key` placeholders
  one entry at a time, JavaScript's `String.prototype.replace` replacement
  patterns included; the input validator for `q`; and the three response
  schemas.

Files, one module each: `wrappers.dfy` (Option), `strings.dfy` (`trim`,
`indexOf`, decimal text of integers), `json.dfy` (JSON values, truthiness,
optional property access), `fences.dfy` (the fence scanner),
`normalizer.dfy`, `handler.dfy`, `shared_routes.dfy`.

Modelling choices:

- `JSON.parse` is an abstract total function `string -> Option<Json>` passed
  as a parameter (`None` when it throws). The idempotence properties assume
  only `ShapeFaithful`: text accepted that starts with `{` gives an object,
  text starting with `[` gives an array.
- SHA-256 is uninterpreted: the signature is the value `Sha256Hex(preimage)`,
  so only the signed text is modelled.
- The upstream call is an input: `fetch` rejects (a network failure, or the
  abort after 10 seconds), a response arrives with a status and a body, or a
  response arrives and reading its body rejects. `Date.now()` and the system
  prompt text are parameters.
- The handler is a method that returns the payloads it posts upstream (none
  or one) and the HTTP response. The `for…in` loop of lines 129-133 and the
  `forEach` of `buildUrl` are `while` loops proved against the functions
  `UnwrapFields` and `SubstituteAll`.

Behaviour of the code worth knowing. In each bullet, the member named in
brackets proves the general rule; the worked examples are traced by hand from
the code and are not proved:

- When the upstream body is not valid JSON, the handler answers with the raw
  body text verbatim (lines 136-138): no trim, no fence removal. So a fenced
  body such as ```` ```json\n{"a":1}\n``` ```` comes back unchanged as a
  string. The rule is `Normalizer.InvalidBodyVerbatim`.
- The fence regular expression of line 113 is lazy. A closing fence is the
  nearest "```" at least three characters after the opener
  (`Fences.FirstMatch`), so nested fences are not unwrapped as nesting. Traced
  by hand, in the `content` string
  ```` ```json\n{"x":"```json\n{\"y\":2}\n```"}\n``` ```` (each `\n` a
  newline character) the inner opener closes the outer fence, and the inner
  closer opens a second match. What remains, `{"x":"json\n{\"y\":2}\n"}`,
  has raw newlines inside a string literal. `JSON.parse` rejects that, so the
  answer is that string rather than an object whose `x` is `{y: 2}`. The
  model's parser is abstract and cannot show the rejection; what it does
  prove is that a rejected cleaned text comes back as a string
  (`Normalizer.ParseIfString`).
- The one-level unwrap covers arrays as well as objects, and every field,
  not only string fields. Non-string fields come back unchanged
  (`Normalizer.UnwrapFields`).
- The 500 schema in `shared/routes.ts` (lines 23-28) requires an `error`
  string. The server's 500 body (lines 149-154) has `response` instead and no
  `error` field. So no 500 body the server sends satisfies that schema
  (`Handler.ServerErrorBodyFailsSchema`). The browser hook, which is outside
  the model, reads `errorData.error`; as read from its code, it then always
  falls back to its generic message.

## Model

| member | source | states |
|---|---|---|
| `Strings.Trim` | server/routes.ts:111-113 | definition of `String.prototype.trim`: strip ECMAScript whitespace and line terminators from both ends; the four lemmas below characterise it |
| `Strings.TrimIsSlice` | server/routes.ts:111 | `trim` returns a contiguous slice of its argument |
| `Strings.TrimRemovesWhitespace` | server/routes.ts:111 | every character `trim` removes is ECMAScript whitespace or a line terminator |
| `Strings.TrimEnds` | server/routes.ts:111 | the trimmed string neither starts nor ends with whitespace |
| `Strings.TrimIdempotent` | server/routes.ts:111-113 | trimming twice equals trimming once |
| `Strings.IndexOf` | shared/routes.ts:38-39 | the result is the first index at or after `from` where the pattern occurs; `None` exactly when it occurs nowhere there |
| `Strings.Contains` | shared/routes.ts:38 | definition of `includes` for a string pattern: `IndexOf` from index 0 finds it |
| `Strings.Decimal` | server/routes.ts:42 | the decimal text of a number is non-empty, all digits, with no leading zero unless the number is 0 |
| `Strings.DecimalRoundTrip` | server/routes.ts:42 | reading the decimal text back gives the number |
| `Strings.DecimalInjective` | server/routes.ts:42-92 | distinct numbers have distinct decimal texts (used for the signed timestamp of line 42 and the status text of line 92) |
| `Strings.IntegerText` | shared/routes.ts:39 | definition of `String(n)` for an integer: a `-` before the decimal text of the magnitude when negative |
| `JsonValues.Truthy` | server/routes.ts:104-129 | definition of JavaScript truthiness, as tested by `ai && …` (line 104), `ai \|\| textResponse` (line 126) and `processed && …` (line 129): `undefined`, `null`, `false`, `0` and `""` are falsy, everything else truthy |
| `JsonValues.IsObjectType` | server/routes.ts:104-129 | definition of `typeof v === "object"` (lines 104 and 129): true of null, arrays and objects |
| `JsonValues.Lookup` | server/routes.ts:101 | the result is present exactly when some member has the key, and is then the value of a member with that key |
| `JsonValues.Get` | server/routes.ts:101 | definition of `v?.key` for `choices`, `message` and `content`: an object's own member, `undefined` on anything else |
| `JsonValues.At0` | server/routes.ts:101 | definition of `v?.[0]`: an array's first element, a string's first character, an object's member "0", `undefined` otherwise |
| `Fences.SkipTag` | server/routes.ts:113 | the interior starts at most five characters after the opener, and the characters skipped hold no backtick |
| `Fences.SkipTagSkips` | server/routes.ts:113 | the text skipped after an opener is "", "\n", "json" or "json\n", the longest of them the string continues with: the greedy `(?:json)?\n?` |
| `Fences.StripFences` | server/routes.ts:113 | the global fence replace never lengthens the string |
| `Fences.CloserSearch` | server/routes.ts:113 | whether the tag is taken never changes which "```" closes a match |
| `Fences.NoFenceUnchanged` | server/routes.ts:113 | a string with no "```" is left unchanged |
| `Fences.FirstMatch` | server/routes.ts:113 | the leftmost "```" pairs with the nearest "```" at least three characters later; the match becomes the text between the end of the skipped tag and the closer, and matching resumes after the closer |
| `Fences.UnpairedFenceStays` | server/routes.ts:113 | a leftmost "```" with no closer stays, together with the rest of the string |
| `Fences.StripFencesPairFree` | server/routes.ts:113 | nothing the replace leaves can be matched again |
| `Fences.StripFencesFixedIff` | server/routes.ts:113 | the replace leaves a string unchanged if and only if nothing in it can be matched |
| `Fences.StripFencesIdempotent` | server/routes.ts:113 | stripping fences twice equals stripping once |
| `Normalizer.Clean` | server/routes.ts:111-113 | definition: trim, replace every fence match by its interior, trim again; its properties are the `Clean…` lemmas below |
| `Normalizer.BracketShaped` | server/routes.ts:115 | definition of the gate: non-empty, starting with `{` and ending with `}`, or starting with `[` and ending with `]` |
| `Normalizer.ParseIfString` | server/routes.ts:108-123 | a non-string comes back unchanged; for a string whose cleaned text passes the gate and parses, the result is the parsed value; off the gate, or when the parse fails, the result is the cleaned text |
| `Normalizer.CleanWithoutFence` | server/routes.ts:111-113 | for a string with no "```", line 113 leaves exactly its trim |
| `Normalizer.CleanPairFree` | server/routes.ts:111-113 | cleaned text holds nothing the fence pattern matches |
| `Normalizer.CleanStable` | server/routes.ts:111-113 | cleaned text is trimmed and cleans to itself |
| `Normalizer.ParseOnlyBehindGate` | server/routes.ts:115-122 | off the `{…}`/`[…]` gate the parser is never consulted: any two parsers give the cleaned string |
| `Normalizer.ParseIfStringFixedPoint` | server/routes.ts:109-122 | a trimmed string with no "```" that is off the gate or fails to parse is a fixed point |
| `Normalizer.ParseIfStringIdempotent` | server/routes.ts:108-123 | for a shape-faithful parser, applying `parseIfString` to its own result changes nothing |
| `Normalizer.UnwrapFields` | server/routes.ts:128-133 | an object keeps its keys, their order and their number, an array its length; each direct field becomes `parseIfString` of its old value; non-string fields are unchanged; nothing deeper is touched; other values pass through |
| `Normalizer.UnwrapFieldsIdempotent` | server/routes.ts:128-133 | a second round of field unwrapping changes nothing |
| `Normalizer.ChatMessage` | server/routes.ts:101 | definition of `jsonResponse?.choices?.[0]?.message` with optional chaining |
| `Normalizer.Descend` | server/routes.ts:104-106 | definition: a truthy object candidate with a truthy `content` is replaced by that `content`; anything else stays |
| `Normalizer.Normalized` | server/routes.ts:97-138 | definition of the answer for an upstream body, as a function; `NormalizeBody` is proved to compute it, and the lemmas below state what it is for each kind of body |
| `Normalizer.NormalizeBody` | server/routes.ts:97-138 | the imperative extraction computes `Normalized(text, parse)` |
| `Normalizer.UnwrapMembers` | server/routes.ts:129-133 | the `for…in` loop over an object, rewriting one member at a time, yields exactly the members of `UnwrapFields` of that object |
| `Normalizer.UnwrapElems` | server/routes.ts:129-133 | the same loop over an array's indices yields exactly the elements of `UnwrapFields` of that array |
| `Normalizer.InvalidBodyVerbatim` | server/routes.ts:97-138 | a body the parser rejects is answered with the raw text verbatim |
| `Normalizer.CompletionContent` | server/routes.ts:101-126 | for any parsed body whose `choices` is a non-empty array whose first element is an object with a `message` object whose `content` is truthy, the answer is that `content` normalised, whatever other members, choices or keys the body holds |
| `Normalizer.CompletionExample` | server/routes.ts:101-126 | the usual body `{"id":"x","choices":[{"index":0,"message":{"role":"assistant","content":c}}]}` with truthy `c` is answered with `c` normalised |
| `Normalizer.MessageWithoutContent` | server/routes.ts:101-126 | for any such body whose message's `content` is missing or falsy, the message object itself is the candidate |
| `Normalizer.FalsyCandidateUsesText` | server/routes.ts:126 | with no truthy candidate, the raw text is what `parseIfString` receives |
| `Normalizer.NormalizedStable` | server/routes.ts:125-133 | for a shape-faithful parser, one more round of field unwrapping leaves the answer unchanged |
| `SharedRoutes.QueryValid` | shared/routes.ts:9 | definition of the input schema: `q` present with at least one character; `Handler.Handle` proves the handler's guard rejects exactly the queries it rejects |
| `SharedRoutes.Accepts200` | shared/routes.ts:12-17 | definition of the 200 schema: an object with string `Join`, number `status`, string `successful`, any `response` |
| `SharedRoutes.Accepts400` | shared/routes.ts:18-22 | definition of the 400 schema: string `error`, number `status`, string `successful` |
| `SharedRoutes.Accepts500` | shared/routes.ts:23-28 | definition of the 500 schema: string `error`, optional string `raw`, number `status`, string `successful` |
| `SharedRoutes.ParamText` | shared/routes.ts:39 | definition of `String(value)` for a string or an integer parameter value |
| `SharedRoutes.Expand` | shared/routes.ts:39 | definition of ECMAScript's GetSubstitution for a string pattern (`$$`, `$&`, `` $` ``, `$'`, any other `$` literal); `ExpandLiteral` and `DollarPatternInValue` are proved about it |
| `SharedRoutes.ExpandLiteral` | shared/routes.ts:39 | a replacement value without `$` is inserted literally |
| `SharedRoutes.ReplaceFirst` | shared/routes.ts:39 | definition of `String.prototype.replace` with a string pattern: the first occurrence only, replaced by the expanded replacement |
| `SharedRoutes.Substitute` | shared/routes.ts:38-39 | definition of one `forEach` step: replace the first `:key` when it occurs |
| `SharedRoutes.SubstituteAll` | shared/routes.ts:37-41 | definition of the steps in entry order, each on the previous result; `BuildUrl` is proved to compute it, and the lemmas below state what it does |
| `SharedRoutes.BuildUrl` | shared/routes.ts:34-44 | without params the path comes back unchanged; with params the result is the entry-by-entry substitution of the path |
| `SharedRoutes.AbsentPlaceholder` | shared/routes.ts:38 | a key whose `:key` does not occur leaves the url unchanged |
| `SharedRoutes.FirstPlaceholderReplaced` | shared/routes.ts:38-39 | only the first occurrence of `:key` is replaced by `String(value)`; the tail after it, later occurrences included, is kept verbatim |
| `SharedRoutes.NoColonUnchanged` | shared/routes.ts:37-41 | a path without `:` comes back unchanged for any params |
| `SharedRoutes.SubstituteAllAppend` | shared/routes.ts:37-41 | substitution follows entry order: later entries rewrite what earlier ones produced |
| `SharedRoutes.ChainedSubstitution` | shared/routes.ts:37-41 | a value holding `:b` is rewritten by a later key `b` (`/:a` with `a=":b"`, `b="7"` gives `/7`) |
| `SharedRoutes.PlaceholderPrefixMatch` | shared/routes.ts:38-39 | placeholders match as substrings: `:id` rewrites the start of `:idx` |
| `SharedRoutes.DollarPatternInValue` | shared/routes.ts:39 | `$&` in a value re-inserts the matched placeholder, as `String.prototype.replace` does |
| `Handler.SignPreimage` | server/routes.ts:42 | definition of the signed text: the decimal timestamp, `:`, the query, `:` |
| `Handler.SignPreimageInjective` | server/routes.ts:41-43 | the signed text `"{time}:{q}:"` determines both the timestamp and the query |
| `Handler.ErrorMessage` | server/routes.ts:148 | definition: an `Error`'s message, and "Unknown error" for anything else thrown |
| `Handler.StatusOk` | server/routes.ts:91 | definition of `response.ok`: a status from 200 to 299 |
| `Handler.MissingQueryResponse` | server/routes.ts:16-22 | the 400 response: code 400, body `status` 400, `successful: "failed"`, `error` the fixed message, no `Join` |
| `Handler.SuccessResponse` | server/routes.ts:140-145 | the 200 response: code 200, body `status` 200, `Join` the invite URL, `successful: "success"`, and the value as `response` |
| `Handler.FailureResponse` | server/routes.ts:147-154 | the 500 response: code 500, body `status` 500, `Join` the invite URL, `successful: "failed"`, and the message string as `response` |
| `Handler.Handle` | server/routes.ts:14-155 | exactly when `q` is absent or empty, nothing is posted and the 400 response is returned. Otherwise exactly one payload is posted: messages `[system(prompt), user(q)]`, `time` = now, `pass` = null, signature over `decimal(time) + ":" + q + ":"`. A rejection gives 500 with its message, a non-ok status N gives 500 with "API returned N", and an ok response gives 200 with the normalised body; the code is 200 exactly for an ok response; every response is well-formed |
| `Handler.SuccessMatchesSchema` | shared/routes.ts:12-17 | every 200 body satisfies the 200 schema |
| `Handler.MissingQueryMatchesSchema` | shared/routes.ts:18-22 | the 400 body satisfies the 400 schema |
| `Handler.ServerErrorBodyFailsSchema` | shared/routes.ts:23-28 | no 500 body the server sends satisfies the 500 schema |

## Left out

- `fetch`, `AbortController` and the 10-second `setTimeout` (server/routes.ts lines 72-88): network I/O and timers. Their outcome is the `Upstream` input, and the abort is one way for `fetch` to reject.
- Whether a particular rejection is an `Error` instance, and what its message says: the thrown value is part of the input.
- SHA-256 (`crypto.createHash`, lines 41-43): a foreign call. It is kept uninterpreted, and the digest is over the UTF-8 bytes of the preimage.
- `JSON.stringify` of the payload and of the response envelope: the payload and the response are modelled as values.
- The random user-agent choice and the header tables (lines 45-51 and 63-70): randomness with no effect on correctness.
- The system prompt literal (lines 27-38): opaque product text, passed in as `prompt`.
- The internals of `JSON.parse`: it is an abstract parser. JSON numbers are reals, and floating-point rounding is not modelled.
- Express route registration (lines 8-13 and 158), the React pages and components, the `use-chat` hook, `server/storage.ts` and `shared/schema.ts`: framework plumbing and presentation. They are outside the core.
- Duplicate keys: `JSON.parse` keeps only the last of repeated keys, and `Lookup` takes the first member with a key. The parser is not required to produce distinct keys, so the model's lookups agree with JavaScript's on objects with distinct keys only. `JSON.parse` never produces any other kind of object.
- `req.query.q` given as an array or object (repeated or bracketed query keys). The model takes `q` as absent or a string.
- Lone surrogates: a Dafny `char` is a Unicode scalar value, so a string holding an unpaired UTF-16 surrogate, which `JSON.parse` produces from `"\ud800"`, has no counterpart in the model. Otherwise, counting code points rather than UTF-16 code units changes nothing the model states. The whitespace `trim` removes and the fence characters are single code units. The one index taken of a string, `choices?.[0]` on a string, is followed by `?.message`, which is `undefined` for any string.
- In-place mutation and aliasing: `processed` may share structure with the parsed body, but nothing reads the body afterwards. The loop therefore rewrites a sequence value.
- A JavaScript object's own key order (integer-like keys first) is whatever the parser produced. For `buildUrl`, the order of `Object.entries(params)` is the order of the given sequence.
- `SharedRoutes.ParamText`: `String(value)` is modelled for strings and integers only. Fractional numbers and integers of magnitude 10^21 or more, which JavaScript prints in exponent form, are not.
- zod's internals: only what the three response schemas and the input schema accept is modelled.
