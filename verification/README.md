# lambdv/net: the HTTP request parser, status table and router in Dafny

This project models the core of a small HTTP/1.1 server written in Rust:

- `parse_http_request`, which turns one buffered request into an
  `HTTPRequest`;
- the token classifiers it uses for methods, protocol versions and header
  names;
- the `HTTPStatus` code table;
- the `Router`, an exact-key table from (method, path) to handler;
- the route-pattern matcher (`RoutePattern::new`, `match_path`). This code
  is commented out in the source, so it is modelled as a stand-alone pure
  function that the router does not call.

Everything is a pure function over immutable values. The project has six
modules:

| module | file | contents |
|---|---|---|
| `Wrappers` | `wrappers.dfy` | `Option` and `Result` |
| `Strings` | `strings.dfy` | the `str` operations the parser relies on |
| `Http` | `http.dfy` | `Method`, `Version`, `HeaderName`, `Request`, `Response`, `Status`, and their parsers and table |
| `RequestParser` | `request_parser.dfy` | `parse_http_request` and a write-then-parse round trip |
| `Router` | `router.dfy` | `new`, `bind` and `handle` |
| `RoutePattern` | `route_pattern.dfy` | pattern construction and path matching |

The `str` operations in `Strings` are:

- ASCII `to_uppercase`;
- `char::is_whitespace`;
- `trim`, `trim_end` and `trim_matches`;
- `split`;
- `split_once`;
- `read_line`.

The parser mirrors the source step by step:

- Request line:
  - It is the first line, right-trimmed and split at every single space.
  - Token 0 must name a method in any letter case.
  - Token 2, once upper-cased and trimmed, must name a version.
  - Token 1 is the target, verbatim.
  - Tokens after the third are ignored.
- Header lines:
  - Each later line is read until a blank line or the end of input.
  - A line without a colon is skipped.
  - Otherwise the right-trimmed line is split at its first colon.
  - The name is upper-cased but not trimmed; the value is trimmed.
  - A repeated name keeps the last value.
- Body: whatever follows is the body, with an empty body read as no body.

The source panics on bad input: `HTTPMethod::from_str` and `HTTPVersion::from_str` fail into an `unwrap`, and a missing second or third token is an out-of-range index of `head[1]` or `head[2]`. Here each panic is one case of `ParseError`, in the order the source evaluates them:

- the method is checked first;
- then the second token must exist;
- then the third;
- then the version must parse.

## Model

| member | source | states |
|---|---|---|
| `Http.ParseMethod` | src/models/http.rs:36-43 | A token parses to a method exactly when it spells that method's name in some mix of letter cases. Otherwise the error is "Invalid HTTP method: " followed by the token as given. |
| `Http.ParseMethodIgnoresCase` | src/models/http.rs:37 | Two tokens with the same upper-case form parse the same way, so only the letters decide. |
| `Http.ParseVersion` | src/models/http.rs:55-62 | A token parses to a version exactly when, without its surrounding whitespace, it spells "HTTP/1.1", "HTTP/2" or "HTTP/3" in any letter case. Otherwise the error is "Invalid HTTP version: " followed by the untrimmed token. |
| `Http.TrimToUpper` | src/models/http.rs:56 | Upper-casing then trimming, the source's order, equals trimming then upper-casing. ASCII upper-casing neither creates nor removes whitespace. |
| `Http.ParseHeaderName` | src/models/http.rs:73-78 | Never fails. A name is `Accept` exactly when it spells "ACCEPT" in any letter case. Every other name is `Other` of an upper-case string that the name spells up to case. |
| `Http.HeaderNameIgnoresCase` | src/models/http.rs:74-76 | Two names give the same header key if and only if their upper-case forms are equal. |
| `Http.Code` | src/models/http.rs:212-286 | The code table, one code per status. Its range and class are stated by `Http.CodeInClass`, its injectivity by `Http.CodeInjective`, and its inverse by `Http.FromCodeOfCode`. |
| `Http.CodeInClass` | src/models/http.rs:212-286 | Every status code lies in [100, 599] and inside the hundred of the class the status is listed under (1xx to 5xx). |
| `Http.FromCode` | src/models/http.rs:212-286 | The reverse table: a code it maps to a status is that status's code. |
| `Http.FromCodeOfCode` | src/models/http.rs:212-286 | The reverse table recovers every status from its code, so the two tables are mutually inverse on the listed codes. |
| `Http.CodeInjective` | src/models/http.rs:212-286 | No two statuses share a code. |
| `Strings.ToUpper` | src/models/http.rs:37 | `to_uppercase` on ASCII: the same length, with each character upper-cased in place. |
| `Strings.TrimEnd` | src/models/http.rs:87 | `trim_end` removes the longest suffix of whitespace. The result is a prefix of the text, everything removed is whitespace, and the result does not end in whitespace. |
| `Strings.TrimStart` | src/models/http.rs:96 | Removes the longest prefix of trimmable characters. The result is a suffix of the text, everything removed is trimmable, and the result does not start with a trimmable character. |
| `Strings.Trim` | src/models/http.rs:102 | `trim` and `trim_matches`: both ends stripped. `Strings.TrimEnds` states that neither end of the result is trimmable, and `Strings.TrimEmptyIff` that the result is empty exactly on all-trimmable text. |
| `Strings.TrimEnds` | src/router.rs:15 | A trimmed text neither starts nor ends with a trimmable character. |
| `Strings.Split` | src/models/http.rs:87 | `split(" ")` always yields at least one piece and no piece contains the separator. Joining the pieces with the separator gives the text back, so empty pieces between consecutive separators are kept. |
| `Strings.SplitJoin` | src/models/http.rs:87 | Splitting pieces that were joined with a separator they do not contain gives back exactly those pieces. |
| `Strings.SplitOnce` | src/models/http.rs:99 | `split_once(":")` cuts at the first colon: the two halves around that colon rebuild the text, and the first half has no colon. |
| `Strings.ReadLine` | src/models/http.rs:86 | `read_line` takes a prefix of the input that holds its line feed, if any, as its last character. It takes everything when there is no line feed, and is empty only on empty input. |
| `Strings.ReadLineOfLine` | src/models/http.rs:95 | Reading a line from text that starts with a complete, newline-terminated line returns exactly that line. |
| `Strings.Lines` | src/models/http.rs:93-98 | The successive `read_line` results concatenate to the input. Each one is a line, and every one except possibly the last ends in a line feed. |
| `Strings.TrimEmptyIff` | src/models/http.rs:96 | `trim()` leaves nothing exactly when the line is all whitespace, which is the blank line that ends the headers. |
| `Strings.TrimCons` | src/router.rs:15 | A leading trimmable character does not change the trimmed text. |
| `Strings.TrimSnoc` | src/router.rs:35 | A trailing trimmable character does not change the trimmed text. |
| `RequestParser.FieldOf` | src/models/http.rs:99-103 | A header line carries a field exactly when it contains a colon. The name is the upper-cased text before the line's first colon, not trimmed. The value is the text after it, trimmed; trimming the line's end first does not change either. |
| `RequestParser.InsertAll` | src/models/http.rs:100-103 | Inserting fields in order gives a map whose keys are the old keys plus every field name. Each name maps to the value of its last field, and keys no field names keep their value. |
| `RequestParser.ReadHeaders` | src/models/http.rs:93-108 | The header loop followed by the final read of the rest. It returns a suffix of its input. Its fields and rest are fixed by `RequestParser.ReadHeadersByLines`. |
| `RequestParser.ReadHeadersByLines` | src/models/http.rs:93-105 | The header loop reads the fields of the lines before the first blank line, or of all lines when none is blank. It returns the text after that blank line. |
| `RequestParser.ParseRequest` | src/models/http.rs:82-116 | Parsing succeeds if and only if the request line has at least three tokens and the first and third name a method and a version. Each failure is the error of the first step that fails. On success the url is token 1 verbatim, the headers come from the lines before the first blank line with the last value winning, and the body is the rest, with an empty body read as none. |
| `RequestParser.ParseRequestText` | src/models/http.rs:82-116 | Round trip. A request written as request line, `name:value` lines, an empty line and a body parses back to the written method and version in any case, the target verbatim, the map of the fields with the last value winning, and the body (none when empty). |
| `RequestParser.ReadFieldSection` | src/models/http.rs:93-105 | The header loop over written field lines, an empty line and a body returns the map of those fields and exactly that body. |
| `Router.Lookup` | src/router.rs:75 | A route is found exactly when it is bound, and then the bound handler is returned. |
| `Router.New` | src/router.rs:65-69 | A new router has no route bound. |
| `Router.Bind` | src/router.rs:71-73 | After binding, the route yields the new handler. Every other route yields what it yielded before, and the bound routes grow by exactly that route. |
| `Router.Handle` | src/router.rs:74-78 | An unbound route fails with "Route not found", runs no handler and leaves the response untouched. A bound route runs its handler exactly once on the request and response, and succeeds. |
| `Router.HandleOnNew` | src/router.rs:65-78 | A fresh router answers every route with "Route not found". |
| `Router.HandleAfterBind` | src/router.rs:71-78 | Handling a just-bound route runs exactly the handler bound to it. |
| `Router.HandleOtherAfterBind` | src/router.rs:71-78 | Binding one route leaves the handling of every other route unchanged. |
| `Router.RebindReplaces` | src/router.rs:71-73 | Binding a route twice is the same as binding only the second handler. |
| `Router.BindCommutes` | src/router.rs:71-73 | Binding two different routes gives the same router in either order. |
| `RoutePattern.ParseSegment` | src/router.rs:17-23 | A segment is a placeholder exactly when it starts with `{` and ends with `}`. The placeholder's name is the text between the braces; any other segment is a literal equal to the text. |
| `RoutePattern.Pieces` | src/router.rs:15-16 | The slash-trimmed text split at slashes: at least one piece, none containing a slash, and together they join back to the trimmed text. |
| `RoutePattern.NewPattern` | src/router.rs:13-27 | A pattern has one segment per piece of the slash-trimmed schema, each classified as placeholder or literal. |
| `RoutePattern.MatchSegments` | src/router.rs:43-51 | The zipped loop succeeds if and only if every literal equals its piece. The captured names are then exactly the placeholders' names, each holding the piece under its last occurrence, and earlier captures survive when not rebound. |
| `RoutePattern.MatchPath` | src/router.rs:31-54 | A path matches if and only if it has as many pieces as the pattern has segments and every literal equals its piece. On a match the keys are exactly the placeholder names, each bound to its piece verbatim. |
| `RoutePattern.MatchLiteralPattern` | src/router.rs:43-53 | A match against a pattern without placeholders captures nothing. |
| `RoutePattern.MatchIgnoresSlashes` | src/router.rs:35 | A leading or trailing slash on the path never changes the match. |
| `RoutePattern.PatternIgnoresSlashes` | src/router.rs:15 | A leading or trailing slash on the schema never changes the pattern. |
| `RoutePattern.SchemaMatchesItself` | src/router.rs:13-54 | Every schema matches its own text, with each placeholder capturing its own braced name. |
| `RoutePattern.MatchLiteralThenPlaceholder` | src/router.rs:31-54 | A literal then a placeholder (`/posts/{id}`) matches a path whose pieces are that literal and one more piece (`/posts/1`). It captures exactly that piece under the placeholder's name. |
| `RoutePattern.MatchExtraPieces` | src/router.rs:37-39 | A path with more pieces than the pattern has segments (`/posts/1/extra` against `/posts/{id}`) never matches. |

## Left out

- Reading from the TCP stream, the server loop and the thread handling in `src/httpserver.rs` and `src/main.rs` are left out: they are I/O.
- Requests are modelled as character strings. UTF-8 decoding, and the `read_line` error it can raise, are not modelled.
- `to_uppercase` is modelled for ASCII letters only. Unicode case mapping, such as `ß` becoming `SS`, is left out.
- `char::is_whitespace` is the fixed list of Unicode whitespace code points.
- The `Display` implementations are left out. That includes `HTTPStatus`'s, which formats itself through itself and so never terminates.
- Serde serialization is left out.
- `HTTPStatus::code` returns a `u16`; the model uses `nat`. Every code lies in [100, 599] (`Http.CodeInClass`), so no truncation can occur.
- Handlers are left abstract. They are values of a type parameter, and what a handler does to the response is the function `run`, given to `Router.Handle`. `Router.Handle` returns the list of handlers it invoked instead of mutating a response in place.
- The header map and the route table are `HashMap`s. They are modelled as Dafny maps, so iteration order, which the source does not fix, plays no part.
- `parse_url`, `match_route`, `path_params`, `HTTPResponse::default`, `HTTPResponse::error` and the three-argument handler are left out. They are called in `src/main.rs`, `src/httpserver.rs` or `tests/integration.rs` but defined nowhere in the source, so there is nothing to model.
- The concrete strings of the integration tests are covered by general lemmas instead of literal examples:
  - `RequestParser.ParseRequestText` covers the request-parsing test;
  - `RoutePattern.MatchLiteralThenPlaceholder`, `RoutePattern.MatchExtraPieces` and `RoutePattern.MatchLiteralPattern` cover the route-matching test.
- The model follows the code as written:
  - A panic on a malformed request line is a `ParseError` value.
  - Method names are matched in any letter case.
  - Extra request-line tokens are ignored rather than rejected.
  - A header name keeps its untrimmed text.
  - A placeholder also matches an empty path segment.
  - `Router::handle` looks routes up by exact (method, path) key, with no pattern matching.
