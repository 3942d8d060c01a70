# secondwheel, modelled in Dafny

secondwheel is a small JavaScript toolbox for React, Express and Apollo. This
project models its core in Dafny and proves properties of the model:

- **subscription helpers.** `created`, `updated` and `deleted` apply a
  GraphQL subscription event to a cached query result at a path.
- **environment loader.** `env` does three things:
  - interpolates `${NAME}` references in the parsed `.env` file;
  - collects the names declared nowhere and throws `EnvError` for them;
  - copies the resolved values into `process.env` without overwriting anything.
- **HTML to JSX conversion.** Both variants are modelled:
  - `jsx.js` trims text;
  - `htmlToArray.js` keeps text verbatim.

  Both rewrite attributes to their React names, parse `style` strings into
  objects, and turn the result into `h(type, props, ...children)` calls.
- **Markdown step.** It strips the final newline and unwraps a lone paragraph.
- **cookies.** The configuration defaults, the serialized
  `document.cookie` string, the regular-expression lookup, the server's
  request and response, and the "return to" cookie.
- **Apollo client wiring.** This covers:
  - the subscription test and the websocket/HTTP split;
  - the error → retry → batch chain with its falsy links dropped;
  - the endpoint defaulting chain;
  - the cache seeding.
- **maskPassword.**

The shared modules model the JavaScript and lodash behaviour these files
rely on:
- `Text`: ASCII whitespace, `trim`, `toLower`, `indexOf`, `split`, decimals.
- `Casing`: lodash `camelCase`/`kebabCase` on ASCII words.
- `Json`: JSON values, truthiness, loose `==`, lodash `merge`.
- `Uri`: `decodeURIComponent` and its inverse on ASCII.

State that the source changes in place is modelled with classes:
- `Env.Process` holds `process.env` and the console log.
- `Dom.Attribs` is an attribute object rewritten by `transformStyle`/`rename`.
- `Cookie.Document` and `Cookie.Response` are the browser's `document` and
  Express's response.

Everything that is a value stays a datatype.

## Model

| member | source | states |
|---|---|---|
| Subscription.Nodes | subscription.js:117 | an array payload is its own list of nodes; any other node is a list of one |
| Subscription.SetPath | subscription.js:73 | lodash `set`: an empty path or a non-object root leaves the value alone; otherwise the path is written |
| Subscription.GetSetPath | subscription.js:73 | reading the path just written with `set` gives back the value written |
| Subscription.SetPathElsewhere | subscription.js:73 | writing at a path leaves every path that diverges from it unchanged |
| Subscription.Created | subscription.js:85-92 | anything other than a CREATED event returns the tree unchanged |
| Subscription.CreatedAppends | subscription.js:71-91 | after `created` the list at the path is the old list (missing: `[]`) followed by the event's nodes in order |
| Subscription.CreatedElsewhere | subscription.js:73 | `created` changes nothing off its path |
| Subscription.NodeIds | subscription.js:143 | one id per node, `undefined` for a node without `id` |
| Subscription.Deleted | subscription.js:133-150 | anything other than a DELETED event returns the tree unchanged |
| Subscription.KeptMembers | subscription.js:147 | an item survives exactly when its id is not among the deleted ids (SameValueZero, as lodash `includes` compares) |
| Subscription.KeptConcat | subscription.js:147 | `reject` works piecewise, so the surviving items keep their order |
| Subscription.DeletedList | subscription.js:143-148 | `deleted` fails only on a null item; otherwise the list at the path is exactly the kept items |
| Subscription.DeletedElsewhere | subscription.js:144-148 | `deleted` changes nothing off its path |
| Subscription.MergeMatching | subscription.js:54-62 | a value that is not an object is left as it is, and an object stays an object |
| Subscription.MergedAt | subscription.js:40-52 | reading a key of null with keys left is the TypeError `result[path[0]]` throws; any other non-object result is unchanged; a missing or falsy child at the head of the path means no change; an update keeps the object's keys and every other field |
| Subscription.MergedAllSpec | subscription.js:46-47 | the `forEach` over an array child fails exactly when some element's update fails, and otherwise updates every element in place |
| Subscription.MergedAtFailsOnNull | subscription.js:40-52 | the update throws exactly when its walk along truthy children meets a null with keys left, whatever the values merged |
| Subscription.UpdateItem | subscription.js:35-64 | the in-place walk with its `forEach` loops leaves exactly the tree `MergedAt` describes, and throws exactly when it does |
| Subscription.UpdatedTree | subscription.js:105-120 | anything other than an UPDATED event returns the tree unchanged; an UPDATED event throws exactly when a null lies on the path |
| Subscription.Updated | subscription.js:105-120 | the method (clone, then walk) gives the tree or the TypeError `UpdatedTree` describes |
| Subscription.NoMatchUnchanged | subscription.js:55-61 | an item that matches none of the values is left as it was |
| Subscription.MatchMerges | subscription.js:55-60 | a matching value's id and primitive fields end up in the item |
| Subscription.LooseEqualsPrimitive | subscription.js:58 | in the model, two loosely equal values are both primitives, so arrays and objects of the deep copy never match (JavaScript's object-to-primitive conversion, as in `[5] == 5`, is left out with the rest of `==`) |
| Subscription.MergeOneTwice | subscription.js:54-62 | merging the same value into an item twice equals merging it once |
| Subscription.MergedAtTwice | subscription.js:40-62 | when a single-value update succeeds, applying it again to its result succeeds and changes nothing |
| Subscription.UpdatedRedelivered | subscription.js:105-120 | a redelivered UPDATED event of one node, after a first delivery that did not throw, succeeds and changes nothing further |
| Subscription.SingleNodeAsArray | subscription.js:116-143 | a single node and a one-element array holding it give the same result for every mutation |
| Json.Prop | subscription.js:56-57 | lodash `has`: a property is present exactly when the value is an object that owns the key |
| Json.LooseEqualsSymmetric | subscription.js:58 | `==` is symmetric |
| Json.LooseEqualsReflexive | subscription.js:58 | `==` holds between a primitive and itself |
| Json.NumberEqualsItsNumeral | subscription.js:58 | a numeric id equals its own decimal string |
| Json.MergeObjects | subscription.js:60 | lodash `merge` of two objects has the union of their keys; a key only in the destination keeps its value; a primitive source value wins |
| Json.MergeItemsLength | subscription.js:60 | merging arrays gives the longer length |
| Json.MergeSelf | subscription.js:60 | merging a value into itself changes nothing |
| Json.MergeIdempotent | subscription.js:60 | merging the same source twice equals merging it once |
| Env.SkipSpaces | env.js:33 | `\s*` stops at the first non-space character |
| Env.SkipWord | env.js:33 | `\w+` stops at the first non-word character |
| Env.PlaceholderAt | env.js:33 | a match of `${ name }` ends within the string and captures a non-empty name |
| Env.PlaceholderShape | env.js:33 | a match starts with `$`, holds no other `$` and captures only word characters |
| Env.Lookup | env.js:40 | a placeholder is replaced by the environment's value if non-empty, else the parsed value if non-empty, else `''` (also when a declared value is empty) |
| Env.AddOnce | env.js:38 | afterwards the missing set holds exactly the names it held before plus the added one |
| Env.ScanMissingSound | env.js:35-41 | interpolation only adds names to the missing set, each declared in neither the file nor the environment |
| Env.ScanMissingComplete | env.js:36-39 | every placeholder whose name is declared nowhere ends up in the missing set |
| Env.ScanVerbatim | env.js:36 | text in which no placeholder starts is copied verbatim |
| Env.NoPlaceholderUnchanged | env.js:36 | a value without placeholders is unchanged and reports nothing missing |
| Env.SinglePlaceholder | env.js:35-41 | `${NAME}` alone interpolates to the looked-up value and reports a missing name exactly when NAME is declared nowhere |
| Env.InitialMissing | env.js:88-94 | the initial missing set holds exactly the example's keys that neither the file nor the environment declares, each once |
| Env.ResolveKeys | env.js:96-98 | rewriting the parsed values keeps the same keys and touches only the file's keys |
| Env.ResolveKeysMissingSound | env.js:96-98 | every name reported missing after the rewrite is declared nowhere or was missing before |
| Env.ResolveKeysMissingComplete | env.js:36-39 | a placeholder in any of the file's values naming a key declared nowhere is reported missing after the rewrite |
| Env.ResolvedNothingMissing | env.js:96-100 | when the rewrite reports nothing missing, nothing was missing before and every placeholder in the file names a declared key |
| Env.ResolveParsed | env.js:96-98 | the `forOwn` loop computes the fold `ResolveKeys` |
| Env.AlreadyDefinedInjective | env.js:106 | distinct keys give distinct debug lines |
| Env.AssignAbsentSpec | env.js:102-108 | the environment gains exactly the file's keys it lacked, with their resolved values, and keeps its own values |
| Env.DebugLines | env.js:105-106 | nothing is logged outside debug mode, and at most one line per key |
| Env.DebugLinesMembers | env.js:102-107 | in debug mode the log mentions exactly the file's keys the environment already defines |
| Env.DebugLinesOnce | env.js:102-107 | each already-defined key is logged exactly once |
| Env.Process.Load | env.js:78-109 | on missing names, fails with an `EnvError` listing them and changes nothing; otherwise assigns the absent keys and logs the rest in debug mode; success implies every example key and every placeholder name in the file is declared |
| Env.Process.AssignAll | env.js:102-108 | the second loop leaves `process.env` and the log as `AssignAbsent` and `DebugLines` describe |
| Text.ToLower | jsx.js:30 | lodash `toLower` lowers each ASCII capital and keeps every other character |
| Text.Trim | jsx.js:39-42 | lodash `trim` gives the part of the string between its leading and trailing whitespace |
| Text.TrimNoSpace | jsx.js:81 | a string without whitespace at either end is its own trim |
| Text.IndexOf | jsx.js:38 | `indexOf` gives the first position of the character, or -1 exactly when it is absent |
| Text.Split | jsx.js:37 | `split` on `;` gives at least one piece, none containing `;` |
| Text.SplitJoin | jsx.js:37 | joining the pieces with `;` gives back the string |
| Text.IntDecimalRoundTrip | cookie.js:62 | a number written by `${value}` reads back as the same number |
| Text.Pow10Numeral | cookie.js:95 | the numeral of a power of ten is a one followed by that many zeros |
| Casing.WordsOfKebab | jsx.js:32 | lodash `words` splits a hyphenated lower-case key into its words |
| Casing.CamelCaseOfKebab | jsx.js:32 | `camelCase` of hyphenated lower-case words keeps the first word and capitalizes the rest |
| Casing.KebabOfCamel | cookie.js:62 | `kebabCase` undoes `camelCase` on hyphenated lower-case words |
| Casing.CamelOfKebab | cookie.js:62 | `camelCase` undoes `kebabCase` on camel-case keys such as `maxAge` |
| Dom.ToJSXKeyIgnoresCase | jsx.js:29-33 | keys that differ only in letter case give the same JSX key |
| Dom.ToJSXKeyOfKebab | jsx.js:29-33 | a hyphenated CSS property becomes its camel-case name |
| Dom.ToJSXKeyOfMsPrefixed | jsx.js:23-33 | a `-ms-` property loses its first hyphen: `-ms-a-b` becomes `msAB` |
| Dom.StyleLastWins | jsx.js:35-46 | the parsed style holds exactly the keys some piece sets, each with the value of the last piece that sets it |
| Dom.Renamed | jsx.js:48-53 | an absent key changes nothing; a present one is removed and its value moves to the new key; every other key keeps its value |
| Dom.WithStyleParsed | jsx.js:35-46 | a string `style` is replaced by its parsed object; other props are untouched |
| Dom.TransformPropsRenames | jsx.js:60-66 | `for` and `class` move to `htmlFor` and `className` on every element |
| Dom.TransformPropsInput | jsx.js:60-66 | on `input`, `checked` and `value` move to `defaultChecked` and `defaultValue`; on other elements they stay |
| Dom.TransformPropsStyle | jsx.js:60 | a string `style` becomes the object it parses into |
| Dom.TransformPropsKeepsOthers | jsx.js:60-66 | every attribute that is not renamed or parsed keeps its value |
| Dom.TransformPropsIdempotent | jsx.js:25-66 | rewriting already-rewritten props changes nothing (the parse is memoized and rewritten in place) |
| Dom.ConvertNode | jsx.js:77-83 | a node contributes at most one entry |
| Dom.ConvertAllAppend | jsx.js:77-83 | converting a list converts its parts in order |
| Dom.WithoutComments | jsx.js:80 | `reject(elements, ['type', 'comment'])` keeps exactly the non-comment nodes in order |
| Dom.CommentsIgnored | jsx.js:80 | comments never reach the output |
| Dom.VerbatimOnePerNode | htmlToArray.js:70-74 | in verbatim mode every non-comment node gives one entry, and text is kept as it is |
| Dom.TrimmedOutput | jsx.js:77-83 | in trimmed mode no string at any depth is empty or has whitespace at its ends |
| Dom.ElementShape | jsx.js:55-75 | a tag becomes its name, its rewritten props and its converted children; a `textarea` with children takes the first as `defaultValue` and keeps none |
| Dom.Attribs.TransformStyle | jsx.js:35-46 | the in-place rewrite leaves the props `WithStyleParsed` describes |
| Dom.Attribs.Rename | jsx.js:48-53 | the in-place rename leaves the props `Renamed` describes |
| Dom.Attribs.Transform | jsx.js:60-66 | the in-place statements leave the props `TransformProps` describes |
| Dom.TransformElementInPlace | jsx.js:55-75 | `transformElement` as written (props rewritten in place) gives the element `TransformElement` describes |
| HtmlToArray.HtmlToArray | htmlToArray.js:70-89 | one entry per non-comment node, every text node's data passed through verbatim |
| HtmlToArray.InputAndTextarea | htmlToArray.js:48-68 | an `input`'s `checked`/`value` become `defaultChecked`/`defaultValue`, and a textarea's text becomes its `defaultValue` |
| Jsx.HtmlToArray | jsx.js:123-127 | every string in the output, at any depth, is trimmed and non-empty |
| Jsx.HtmlToJSXStrings | jsx.js:148-152 | the composition keeps one entry per converted entry and passes only trimmed, non-empty strings |
| Jsx.TextTrimmed | jsx.js:81 | whitespace-only text disappears and other text loses its surrounding whitespace |
| ArrayToJsx.ElementProps | arrayToJSX.js:28 | `{ ...el.props, key }`: the index key is written last and wins; the other props pass through |
| ArrayToJsx.ArrayToJSXSpec | arrayToJSX.js:22-29 | the same length; strings pass through; entry i becomes `h(type, { ...props, key: i }, ...children)`, the children converted the same way |
| ArrayToJsx.ArrayToJSXEmpty | arrayToJSX.js:22 | an empty array gives an empty result |
| ArrayToJsx.DivExample | arrayToJSX.js:22-29 | a `div` with one string child becomes `h('div', { key: 0 }, 'test')` |
| MarkdownToArray.StripUndoesNewline | markdownToArray.js:10-30 | removing the final newline undoes appending one |
| MarkdownToArray.StripOnlyOne | markdownToArray.js:10 | only one newline is removed |
| MarkdownToArray.StripKeepsOthers | markdownToArray.js:10 | a string not ending in a newline is left alone |
| MarkdownToArray.UnwrappedParagraph | markdownToArray.js:34 | a lone paragraph stands for its children |
| MarkdownToArray.TwoParagraphs | markdownToArray.js:25-34 | two paragraphs and the newline between them are all kept |
| MarkdownToArray.EmptyMarkdown | markdownToArray.js:34 | no parsed nodes give an empty array |
| Uri.Encode | cookie.js:202 | the encoding holds only `%`, hex digits and unreserved characters |
| Uri.DecodeEncode | cookie.js:202 | `decodeURIComponent` undoes the encoding of ASCII text |
| Uri.DecodeWithoutEscapes | cookie.js:202 | text without `%` decodes to itself |
| Uri.DecodeMalformed | cookie.js:202 | a `%` not followed by two hex digits is a `URIError` |
| Cookie.Get | cookie.js:51 | a property is found exactly when its key is among the object's keys |
| Cookie.SpreadSpec | cookie.js:53-57 | a spread takes each key from the overriding object if present, else from the base, and keeps the base's keys first in order |
| Cookie.SpreadKeys | cookie.js:53-57 | the keys of a spread are the base's keys in their order, followed by the overriding object's new keys in its order |
| Cookie.PutNew | cookie.js:56 | writing a key the object lacks appends it last |
| Cookie.ConfigSpec | cookie.js:50-58 | `path` and `domain` come first; `path` defaults to `/`, `domain` to `.` plus the request's host name or the page's host; every other option is the caller's |
| Cookie.UpToSemicolon | cookie.js:137 | the captured value never contains `;` |
| Cookie.CookieMatchBySplit | cookie.js:137-138 | for a name without `;` the regular expression finds the first `;`-separated piece reading `name=value`, after one optional space |
| Cookie.ServerCookie | cookie.js:134-135 | the plain cookie unless it is missing or empty, then the signed one; `undefined` when neither exists |
| Cookie.SetThenGet | cookie.js:77-138 | in the browser, reading a cookie right after setting it gives the value set |
| Cookie.RemoveThenGet | cookie.js:137-163 | in the browser, a removed cookie reads as `''` |
| Cookie.ReturnToValue | cookie.js:202 | a missing or empty value is returned as it is; any other value fails with a `URIError` exactly when decoding it fails, and otherwise comes back decoded |
| Cookie.SerializeAppend | cookie.js:60-64 | serializing two property lists one after the other concatenates their serializations |
| Cookie.KebabOfWord | cookie.js:62 | a lower-case key such as `path` is written as it is |
| Cookie.KebabMaxAge | cookie.js:62 | the key `maxAge` is written `max-age` |
| Cookie.MaxAgeText | cookie.js:95 | `10 ** 10` is written `10000000000` |
| Cookie.ClientConfig | cookie.js:50-58 | in the browser without options the configuration is exactly `path` `/` then `domain` `.` plus the page's host |
| Cookie.ClientPersistentConfig | cookie.js:50-95 | for `setCookie` without options, `maxAge` 10^10 follows `path` and `domain` |
| Cookie.ClientExpiredConfig | cookie.js:153-158 | for `removeCookie` without options, the 1970 `expires` follows `path` and `domain` |
| Cookie.ClientSetCookieHeader | cookie.js:60-95 | `setCookie(name, value)` in the browser assigns `name=value;path=/;domain=.host;max-age=10000000000;` |
| Cookie.ClientSessionCookieHeader | cookie.js:60-113 | `setSessionCookie(name, value)` in the browser assigns `name=value;path=/;domain=.host;` |
| Cookie.ClientRemoveCookieHeader | cookie.js:153-165 | `removeCookie(name)` in the browser assigns `name=;path=/;domain=.host;expires=Thu, 01 Jan 1970 00:00:00 UTC;` |
| Cookie.Set | cookie.js:66-79 | with a response, one `cookie(name, value, config)` call and `document.cookie` untouched; otherwise `document.cookie` becomes `name=value;` plus the serialized configuration |
| Cookie.SetCookie | cookie.js:91-95 | as `set`, with `maxAge` 10^10 first unless the caller gives one |
| Cookie.SetSessionCookie | cookie.js:109-113 | as `set`, with the options unchanged |
| Cookie.RemoveCookie | cookie.js:153-165 | with a response, one `clearCookie` call; otherwise an empty value whose `expires` is the 1970 epoch unless the caller gives one |
| Cookie.SetReturnTo | cookie.js:179-183 | the request's original URL, or the page's address, stored unencoded in the session cookie `return-to` |
| Cookie.GetReturnTo | cookie.js:197-203 | the `return-to` value read before removal, decoded; the cookie is removed |
| Cookie.ReturnToAsWrittenLosesEscape | cookie.js:179-203 | as written, the stored address `/%25` comes back as `/%` |
| Cookie.StoredReturnTo | cookie.js:181 | the encoded address has no `;` and no leading space, and is empty only for an empty address |
| Cookie.ReturnToRoundTrip | cookie.js:179-203 | with the address encoded on the way in, the browser gets back exactly the address stored |
| ApolloClient.CreateLinkRouting | ApolloClient.js:136-161 | with a websocket link, subscriptions go to it and other operations to HTTP; without one, the HTTP link takes everything |
| ApolloClient.CreateWSLink | ApolloClient.js:207-215 | no link exactly when `wsUri` is missing or empty or there is no implementation; otherwise `wsOptions` defaults to `{ reconnect: true }` and the implementation to the native one |
| ApolloClient.EndpointChain | ApolloClient.js:304-318 | on Node the endpoint is the first of `serverUri`, `browserUri`, `uri` given; in the browser the first of `browserUri`, `uri`; `/graphql` otherwise |
| ApolloClient.EndpointSides | ApolloClient.js:304-318 | the browser ignores `serverUri`; on Node a given `serverUri` wins |
| ApolloClient.CreateBatchLink | ApolloClient.js:302-329 | the endpoint chain, `headers` and `fetchOptions` defaulting to `{}`, `credentials` to `same-origin` |
| ApolloClient.CreateCache | ApolloClient.js:172-176 | the cache restores `options.cache`, or `{}` |
| ApolloClient.CompactMembers | ApolloClient.js:189 | `compact` keeps exactly the links present |
| ApolloClient.CompactAppend | ApolloClient.js:189 | `compact` keeps the order of the links it keeps |
| ApolloClient.HttpLinkOrder | ApolloClient.js:188-235 | the HTTP chain is error, retry, batch in that order, falsy ones left out |
| ApolloClient.DefaultHttpLink | ApolloClient.js:229-266 | with the class's own factories the chain is the error link (callback defaulting to `noop`), the retry link and the batch link |
| ApolloClient.DefaultClientRouting | ApolloClient.js:112-161 | a default client routes subscriptions to the websocket link when one can be built and everything else to the chain; `ssrMode` is `isNode` |
| ApolloClient.ReplacedFactories | ApolloClient.js:188-235 | with the factories replaced by constants, the chain follows them, and a falsy retry link drops out |
| MaskPassword.Mask | maskPassword.js:14 | the mask has the password's length and only `*`; a missing password gives `''` |
| MaskPassword.MaskUnique | maskPassword.js:14 | the mask is the only all-`*` string of the password's length |
| MaskPassword.MaskIgnoresContent | maskPassword.js:14 | passwords of equal length give the same mask |

## Left out

- Paths are taken already split into keys: lodash `toPath` bracket syntax and numeric array indices in `set`/`get` are not modelled.
- Subscription.MergedAt: an array met while keys remain is indexed by key in JavaScript (`list["0"]`, or a named property); the model treats every such key as absent, so neither such updates nor their TypeErrors are modelled.
- Subscription.Put: lodash `set` keeps an array met as an intermediate and writes a named property onto it; a JSON value cannot hold named properties on an array, so the model replaces that array with an object, as it does for a primitive intermediate.
- Json.Merge: a plain-object source merged into an array keeps the array, as lodash does, but the source's keys are not written onto it (numeric keys would replace elements, other keys would become named properties); JSON values cannot hold the latter.
- lodash `reject` over a list that is an object iterates the object's values; the model treats any list that is not an array or string as empty.
- Loose equality `==` covers integers, decimal strings, booleans, null and references; fractions, hexadecimal and exponent strings, `undefined` versus `null` and object-to-primitive conversion are not modelled.
- Text handling is ASCII only: Unicode whitespace, case mapping, apostrophes and numbers in lodash `words` are not modelled.
- `cloneDeep` and the in-place mutation of the clone are modelled on values; aliasing between the caller's tree and the result is therefore not captured.
- The memoized parse shares attribute objects between calls; the model captures that through `Dom.TransformPropsIdempotent`, not through aliasing.
- DOM nodes other than comments, text and tags (directives, CDATA) are not modelled; parsing (cheerio), Markdown compilation (`marked`) and lodash templating are parameters or inputs.
- `htmlToJSX.js`, `markdownToJSX.js` and `markdown.js` are one-line compositions of modelled functions with those parsers; only `Jsx.HtmlToJSX` is modelled.
- Reading `.env` files and dotenv parsing are left out; the parsed file and the example's keys are inputs.
- Env.Scan: cyclic `${A}` references recurse without bound in the source; the model bounds the depth by `fuel` and reports `TooDeep`.
- Uri.Decode: escapes of bytes 0x80 and above (UTF-8 sequences) are reported as errors instead of being decoded, and `Encode` covers ASCII input only.
- The cookie name is spliced into the regular expression unescaped; names holding metacharacters (other than as literal characters) are not modelled.
- `window.location` and `document` are parameters; the `ReferenceError` of reading `window` on a server without a host name is not modelled.
- Browser cookie-jar semantics (several cookies, attributes, expiry) are not modelled; `document.cookie` is the plain string the helpers assign.
- Links, the cache and the websocket implementation are tags: retry, batching, error interception, websocket reconnection and `InMemoryCache.restore` live in third-party packages.
- Only the leaf factories (`createWSLink`, `createErrorLink`, `createRetryLink`, `createBatchLink`) can be replaced in the model; replacing `createHttpLink` is covered by `CreateLink` taking any HTTP link, and replacing `getLinks`, `createCache` or `createLink` is not modelled.
- Options left `null` rather than `undefined` are not modelled: destructuring defaults apply only to `undefined`, and the model's None stands for `undefined`.
- The `fetch` implementation passed to the batch link and functions inside `attempts` (`retryIf`) are not modelled.
- `nextApollo.js`, `theme/`, `md5.js`, `slug.js`, `template.js`, `constants.js` (`isNode` and `NativeWebSocket` are parameters), the assertion helpers and `flow-typed/` are not part of this model.
- test/cookie.js expects a `GMT` date on removal while cookie.js:156 writes `Thu, 01 Jan 1970 00:00:00 UTC`; the model follows the code.

## Findings

| source | as written | input that shows it | evidently intended | confidence | as-written member | corrected member |
|---|---|---|---|---|---|---|
| cookie.js:179-183, 197-203 | in the browser `setReturnTo` stores the address unencoded, while `getReturnTo` passes it through `decodeURIComponent` | `window.location.href` = `/%25` comes back as `/%` (and an address holding `;` is cut short) | store `encodeURIComponent(address)` so that reading back gives the address stored | medium, not executed | Cookie.ReturnToAsWrittenLosesEscape | Cookie.ReturnToRoundTrip |
