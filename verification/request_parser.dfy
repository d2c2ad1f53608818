/** `parse_http_request`: one fully buffered request, as text, turned into a
    `Request`. The first line is the request line (method, target, version
    separated by single spaces, as in section 3 of RFC 9112); the following
    lines up to the first blank one are header fields (`name ":" value`, as in
    section 5 of RFC 9112); whatever follows is the body. Where the source
    panics on an `unwrap` or an out-of-range index, the model returns a
    `ParseError`. */
module RequestParser {
  import opened Wrappers
  import opened Strings
  import opened Http

  /** Why a request could not be parsed, in the order the source checks. */
  datatype ParseError =
    | InvalidMethod(message: string)    // `HTTPMethod::from_str` failed
    | MissingTarget                     // the request line has one token only
    | MissingVersion                    // the request line has two tokens only
    | InvalidVersion(message: string)   // `HTTPVersion::from_str` failed

  // ---------------------------------------------------------------------------
  // Header fields
  // ---------------------------------------------------------------------------

  /** The field a header line carries, if it has a colon: the name is the text
      before the first colon, untrimmed and classified; the value is the text
      after it, trimmed of whitespace. */
  function FieldOf(line: string): (f: Option<(HeaderName, string)>)
    ensures f.Some? <==> ':' in line
    ensures f.Some? ==>
      var i := IndexOf(line, ':');
      f.value == (ParseHeaderName(line[..i]), Trim(line[i + 1..], Whitespace))
  {
    var trimmed := TrimEnd(line, Whitespace);
    if ':' in trimmed then
      var (key, value) := SplitOnce(trimmed, ':');
      FieldOfTrimmedLine(line);
      Some((ParseHeaderName(key), Trim(value, Whitespace)))
    else
      None
  }

  /** Splitting the right-trimmed line at its first colon gives the same name
      and, once trimmed, the same value as splitting the line itself. */
  lemma FieldOfTrimmedLine(line: string)
    requires ':' in TrimEnd(line, Whitespace)
    ensures ':' in line
    ensures var t := TrimEnd(line, Whitespace); var i := IndexOf(line, ':');
      && SplitOnce(t, ':').0 == line[..i]
      && Trim(SplitOnce(t, ':').1, Whitespace) == Trim(line[i + 1..], Whitespace)
  {
    var t := TrimEnd(line, Whitespace);
    var j := IndexOf(t, ':');
    FirstColonOfTrimmed(line, t, j);
    SplitOnceAt(t, ':', j);
    TrimmedValue(line, t, j);
  }

  /** After the colon, the line is the trimmed line's rest plus whitespace,
      which trimming removes again. */
  lemma TrimmedValue(line: string, t: string, j: nat)
    requires j < |t| <= |line|
    requires line[j + 1..] == t[j + 1..] + line[|t|..] && AllIn(line[|t|..], Whitespace)
    ensures Trim(t[j + 1..], Whitespace) == Trim(line[j + 1..], Whitespace)
  {
    TrimAppendAll(t[j + 1..], line[|t|..], Whitespace);
  }

  /** The first colon of the right-trimmed line is the first colon of the
      line; around it the two agree, up to the whitespace trimmed off. */
  lemma FirstColonOfTrimmed(line: string, t: string, j: nat)
    requires t == TrimEnd(line, Whitespace) && ':' in t && j == IndexOf(t, ':')
    ensures ':' in line && IndexOf(line, ':') == j
    ensures line[..j] == t[..j]
    ensures line[j + 1..] == t[j + 1..] + line[|t|..]
    ensures AllIn(line[|t|..], Whitespace)
  {
    assert line[..|t|] == t;
    assert line[..j] == t[..j];
    IndexOfUnique(line, ':', j);
    SliceJoin(line, j + 1, |t|);
  }

  /** Trailing trimmable text never changes the trimmed result. */
  lemma {:induction false} TrimAppendAll(a: string, w: string, k: CharClass)
    requires AllIn(w, k)
    ensures Trim(a + w, k) == Trim(a, k)
    decreases |w|
  {
    if w != [] {
      var w' := w[..|w| - 1];
      assert a + w == (a + w') + [w[|w| - 1]];
      TrimSnoc(a + w', w[|w| - 1], k);
      TrimAppendAll(a, w', k);
    } else {
      assert a + w == a;
    }
  }

  /** One header line into the map: its field goes in, and a repeated name
      overwrites. */
  function AddField(acc: Headers, line: string): Headers {
    match FieldOf(line)
    case Some((name, value)) => acc[name := value]
    case None => acc
  }

  /** The fields of `lines`, in order; lines without a colon contribute none. */
  function FieldsOf(lines: seq<string>): seq<(HeaderName, string)> {
    if lines == [] then []
    else
      (match FieldOf(lines[0]) case Some(f) => [f] case None => []) + FieldsOf(lines[1..])
  }

  /** Some field of `fields` has name `k`. */
  predicate Named(fields: seq<(HeaderName, string)>, k: HeaderName) {
    exists i :: 0 <= i < |fields| && fields[i].0 == k
  }

  /** No later field repeats the name of field `i`. */
  predicate IsLastOf(fields: seq<(HeaderName, string)>, i: nat)
    requires i < |fields|
  {
    forall j :: i < j < |fields| ==> fields[j].0 != fields[i].0
  }

  /** The map built by inserting `fields` into `acc` in order: every name that
      occurs is a key, the last field with a name gives its value, and keys the
      fields never name keep their value. */
  function InsertAll(acc: Headers, fields: seq<(HeaderName, string)>): (r: Headers)
    ensures forall k :: k in r <==> k in acc || Named(fields, k)
    ensures forall i :: 0 <= i < |fields| ==> fields[i].0 in r
    ensures forall i :: 0 <= i < |fields| && IsLastOf(fields, i) ==> r[fields[i].0] == fields[i].1
    ensures forall k :: k in acc && !Named(fields, k) ==> r[k] == acc[k]
    decreases |fields|
  {
    if fields == [] then acc
    else
      var rest := fields[1..];
      var r := InsertAll(acc[fields[0].0 := fields[0].1], rest);
      assert forall i :: 0 < i < |fields| ==> fields[i] == rest[i - 1];
      assert forall k :: Named(fields, k) <==> fields[0].0 == k || Named(rest, k) by {
        forall k ensures Named(fields, k) ==> fields[0].0 == k || Named(rest, k) {
          if Named(fields, k) {
            var i :| 0 <= i < |fields| && fields[i].0 == k;
            if i > 0 {
              assert rest[i - 1].0 == k;
            }
          }
        }
      }
      assert forall i :: 0 < i < |fields| && IsLastOf(fields, i) ==> IsLastOf(rest, i - 1);
      assert IsLastOf(fields, 0) ==> !Named(rest, fields[0].0);
      r
  }

  // ---------------------------------------------------------------------------
  // The header loop
  // ---------------------------------------------------------------------------

  /** Index of the first blank line of `ls`, or `|ls|` when none is blank. */
  function FirstBlank(ls: seq<string>): (t: nat)
    ensures t <= |ls|
    ensures forall i :: 0 <= i < t ==> !IsBlank(ls[i])
    ensures t < |ls| ==> IsBlank(ls[t])
  {
    if ls == [] then 0
    else if IsBlank(ls[0]) then 0
    else 1 + FirstBlank(ls[1..])
  }

  /** The header lines among `ls`, the lines following a request line:
      everything before the first blank line. */
  function HeaderLines(ls: seq<string>): seq<string> {
    ls[..FirstBlank(ls)]
  }

  /** What follows the first blank line of `ls`; nothing if there is none. */
  function BodyText(ls: seq<string>): string {
    var t := FirstBlank(ls);
    if t < |ls| then Concat(ls[t + 1..]) else []
  }

  /** The header loop together with the final read of the remainder: reads
      lines until end of input or a blank line, adding the field of every line
      with a colon, and returns the text after the terminating line. In terms
      of the lines of `s`, the fields come from the lines before the first
      blank one and the rest is the text after it. */
  function ReadHeaders(s: string, acc: Headers): (r: (Headers, string))
    ensures |r.1| <= |s| && r.1 == s[|s| - |r.1|..]
    decreases |s|
  {
    if s == [] then (acc, s)
    else
      var line := ReadLine(s);
      var rest := s[|line|..];
      if Trim(line, Whitespace) == [] then (acc, rest)
      else ReadHeaders(rest, AddField(acc, line))
  }

  /** What `ReadHeaders` returns, in terms of the lines of its input: the
      fields come from the lines before the first blank one and the rest is
      the text after it. */
  lemma {:induction false} ReadHeadersByLines(s: string, acc: Headers)
    ensures ReadHeaders(s, acc) == (InsertAll(acc, FieldsOf(HeaderLines(Lines(s)))), BodyText(Lines(s)))
    decreases |s|
  {
    if s != [] {
      var line := ReadLine(s);
      var rest := s[|line|..];
      LinesCons(s);
      TrimEmptyIff(line, Whitespace);
      SectionCons(line, Lines(rest));
      if Trim(line, Whitespace) != [] {
        InsertAllCons(acc, FieldOf(line), FieldsOf(HeaderLines(Lines(rest))));
        ReadHeadersByLines(rest, AddField(acc, line));
      }
    }
  }

  lemma InsertAllCons(acc: Headers, f: Option<(HeaderName, string)>, fields: seq<(HeaderName, string)>)
    ensures InsertAll(acc, (match f case Some(x) => [x] case None => []) + fields)
         == InsertAll(match f case Some(x) => acc[x.0 := x.1] case None => acc, fields)
  {
    match f
    case Some(x) => assert ([x] + fields)[1..] == fields;
    case None => assert [] + fields == fields;
  }

  /** The first line read off non-empty text is the first of its lines. */
  lemma LinesCons(s: string)
    requires s != []
    ensures Lines(s) == [ReadLine(s)] + Lines(s[|ReadLine(s)|..])
  {
  }

  /** How one more line in front changes the header section and the body: a
      blank line ends the section at once; any other line joins it. */
  lemma SectionCons(line: string, ls: seq<string>)
    ensures IsBlank(line) ==> HeaderLines([line] + ls) == [] && BodyText([line] + ls) == Concat(ls)
    ensures !IsBlank(line) ==>
      && FieldsOf(HeaderLines([line] + ls))
         == (match FieldOf(line) case Some(f) => [f] case None => []) + FieldsOf(HeaderLines(ls))
      && BodyText([line] + ls) == BodyText(ls)
  {
    var l := [line] + ls;
    assert l[0] == line;
    assert l[1..] == ls;
    if IsBlank(line) {
      assert FirstBlank(l) == 0;
    } else {
      var t := FirstBlank(ls);
      assert FirstBlank(l) == t + 1;
      var h := HeaderLines(l);
      assert h == l[..t + 1];
      assert h == [line] + ls[..t];
      FieldsOfCons(line, ls[..t]);
      if t < |ls| {
        assert l[t + 2..] == ls[t + 1..];
      }
    }
  }

  lemma FieldsOfCons(line: string, ls: seq<string>)
    ensures FieldsOf([line] + ls) == (match FieldOf(line) case Some(f) => [f] case None => []) + FieldsOf(ls)
  {
    assert ([line] + ls)[0] == line;
    assert ([line] + ls)[1..] == ls;
  }

  // ---------------------------------------------------------------------------
  // The request
  // ---------------------------------------------------------------------------

  /** The tokens of the request line: the first line, right-trimmed, split at
      every single space. */
  function RequestLineTokens(data: string): (head: seq<string>)
    ensures |head| >= 1
  {
    Split(TrimEnd(ReadLine(data), Whitespace), ' ')
  }

  /** `parse_http_request`. The request line decides success: its first token
      must name a method, a second and a third token must exist, and the third
      must name a version; tokens after the third are ignored and the second is
      the target, verbatim. The header fields and the body come from the lines
      after the request line (see `HeaderLines` and `BodyText`); an empty body
      is no body. */
  function ParseRequest(data: string): (r: Result<Request, ParseError>)
    ensures var head := RequestLineTokens(data);
      r.Success? <==> |head| >= 3 && ParseMethod(head[0]).Success? && ParseVersion(head[2]).Success?
    ensures var head := RequestLineTokens(data); var m := ParseMethod(head[0]);
      && (m.Failure? ==> r == Failure(InvalidMethod(m.error)))
      && (m.Success? && |head| == 1 ==> r == Failure(MissingTarget))
      && (m.Success? && |head| == 2 ==> r == Failure(MissingVersion))
      && (m.Success? && |head| >= 3 && ParseVersion(head[2]).Failure? ==>
            r == Failure(InvalidVersion(ParseVersion(head[2]).error)))
    ensures r.Success? ==>
      var head := RequestLineTokens(data);
      var ls := Lines(data);
      && |ls| >= 1
      && r.value.httpMethod == ParseMethod(head[0]).value
      && r.value.url == head[1]
      && r.value.version == ParseVersion(head[2]).value
      && r.value.headers == InsertAll(map[], FieldsOf(HeaderLines(ls[1..])))
      && r.value.body == (if BodyText(ls[1..]) == [] then None else Some(BodyText(ls[1..])))
  {
    var first := ReadLine(data);
    var head := Split(TrimEnd(first, Whitespace), ' ');
    match ParseMethod(head[0])
    case Failure(e) => Failure(InvalidMethod(e))
    case Success(m) =>
      if |head| < 2 then Failure(MissingTarget)
      else if |head| < 3 then Failure(MissingVersion)
      else
        match ParseVersion(head[2])
        case Failure(e) => Failure(InvalidVersion(e))
        case Success(version) =>
          var rest := data[|first|..];
          assert data != [];
          assert Lines(data)[1..] == Lines(rest);
          ReadHeadersByLines(rest, map[]);
          var (headers, body) := ReadHeaders(rest, map[]);
          Success(Request(m, head[1], version, headers, if body == [] then None else Some(body)))
  }

  // ---------------------------------------------------------------------------
  // Round trip
  // ---------------------------------------------------------------------------

  /** A header line as a client writes it: name, colon, value, CRLF. */
  function FieldLine(field: (string, string)): string {
    field.0 + ":" + field.1 + "\r\n"
  }

  function FieldLinesText(fields: seq<(string, string)>): string {
    if fields == [] then [] else FieldLine(fields[0]) + FieldLinesText(fields[1..])
  }

  /** A request written out: request line, header lines, an empty line, body. */
  function RequestText(
    methodToken: string, target: string, versionToken: string,
    fields: seq<(string, string)>, body: string): string
  {
    (methodToken + " " + target + " " + versionToken) + "\r\n" + (FieldLinesText(fields) + "\r\n" + body)
  }

  /** A written field the parser can read back: no colon in the name, no line
      feed anywhere. */
  predicate WellFormedField(field: (string, string)) {
    ':' !in field.0 && '\n' !in field.0 && '\n' !in field.1
  }

  /** The header entry a written field stands for: classified name, trimmed value. */
  function Entry(field: (string, string)): (HeaderName, string) {
    (ParseHeaderName(field.0), Trim(field.1, Whitespace))
  }

  /** The header entries of written fields, in order. */
  function Classified(fields: seq<(string, string)>): seq<(HeaderName, string)> {
    if fields == [] then [] else [Entry(fields[0])] + Classified(fields[1..])
  }

  /** Parsing a written request gives back what was written: the method and
      version its tokens spell in any letter case, the target verbatim (query
      included), the header map of its fields (last one wins) and the body, or
      no body when it is empty. */
  lemma ParseRequestText(
    m: Method, methodToken: string, target: string, v: Version, versionToken: string,
    fields: seq<(string, string)>, body: string)
    requires SpellsIgnoringCase(methodToken, MethodToken(m))
    requires SpellsIgnoringCase(versionToken, VersionToken(v))
    requires ' ' !in target && '\n' !in target
    requires forall i :: 0 <= i < |fields| ==> WellFormedField(fields[i])
    ensures ParseRequest(RequestText(methodToken, target, versionToken, fields, body))
         == Success(Request(m, target, v, InsertAll(map[], Classified(fields)),
                            if body == [] then None else Some(body)))
  {
    var first := (methodToken + " " + target + " " + versionToken) + "\r\n";
    var rest := FieldLinesText(fields) + "\r\n" + body;
    WrittenRequest(m, methodToken, target, v, versionToken, fields, body);
    ParseRequestOf(RequestText(methodToken, target, versionToken, fields, body), first, rest,
                   m, target, v, InsertAll(map[], Classified(fields)), body);
  }

  /** How the parser's steps see a written request: its first line, the
      tokens of that line, and the header loop over the rest. */
  lemma WrittenRequest(
    m: Method, methodToken: string, target: string, v: Version, versionToken: string,
    fields: seq<(string, string)>, body: string)
    requires SpellsIgnoringCase(methodToken, MethodToken(m))
    requires SpellsIgnoringCase(versionToken, VersionToken(v))
    requires ' ' !in target && '\n' !in target
    requires forall i :: 0 <= i < |fields| ==> WellFormedField(fields[i])
    ensures var data := RequestText(methodToken, target, versionToken, fields, body);
      var first := (methodToken + " " + target + " " + versionToken) + "\r\n";
      var rest := FieldLinesText(fields) + "\r\n" + body;
      var head := RequestLineTokens(data);
      && ReadLine(data) == first && |first| <= |data| && data[|first|..] == rest
      && |head| >= 3 && head[1] == target
      && ParseMethod(head[0]) == Success(m) && ParseVersion(head[2]) == Success(v)
      && ReadHeaders(rest, map[]) == (InsertAll(map[], Classified(fields)), body)
  {
    var rest := FieldLinesText(fields) + "\r\n" + body;
    TokenNames(m, methodToken, v, versionToken);
    WrittenRequestLine(methodToken, target, versionToken, rest);
    ReadFieldSection(fields, body, map[]);
  }

  /** Tokens spelling a method and a version parse as those, and hold no
      separators. */
  lemma TokenNames(m: Method, methodToken: string, v: Version, versionToken: string)
    requires SpellsIgnoringCase(methodToken, MethodToken(m))
    requires SpellsIgnoringCase(versionToken, VersionToken(v))
    ensures ParseMethod(methodToken) == Success(m) && ParseVersion(versionToken) == Success(v)
    ensures ' ' !in methodToken && '\n' !in methodToken
    ensures ' ' !in versionToken && '\n' !in versionToken
    ensures versionToken != [] && !IsWhitespace(versionToken[|versionToken| - 1])
  {
    MethodTokenParses(m, methodToken);
    VersionTokenShape(v, versionToken);
    VersionTokenParses(v, versionToken);
  }

  lemma MethodTokenParses(m: Method, token: string)
    requires SpellsIgnoringCase(token, MethodToken(m))
    ensures ParseMethod(token) == Success(m)
    ensures ' ' !in token && '\n' !in token
  {
    TokenHasNoSeparators(token, MethodToken(m));
  }

  lemma VersionTokenShape(v: Version, token: string)
    requires SpellsIgnoringCase(token, VersionToken(v))
    ensures ' ' !in token && '\n' !in token
    ensures token != [] && !IsWhitespace(token[|token| - 1])
  {
    TokenHasNoSeparators(token, VersionToken(v));
  }

  lemma VersionTokenParses(v: Version, token: string)
    requires SpellsIgnoringCase(token, VersionToken(v))
    ensures ParseVersion(token) == Success(v)
  {
    VersionTokenUntrimmed(v, token);
    VersionOfUntrimmed(v, token);
  }

  lemma VersionTokenUntrimmed(v: Version, token: string)
    requires SpellsIgnoringCase(token, VersionToken(v))
    ensures Trim(token, Whitespace) == token
  {
    TokenHasNoSeparators(token, VersionToken(v));
    TrimOfNoWhitespace(token);
  }

  lemma VersionOfUntrimmed(v: Version, token: string)
    requires Trim(token, Whitespace) == token
    requires SpellsIgnoringCase(token, VersionToken(v))
    ensures ParseVersion(token) == Success(v)
  {
  }

  /** A request line written from three tokens and CRLF, followed by more
      text, is read as the first line and splits back into the tokens. */
  lemma WrittenRequestLine(methodToken: string, target: string, versionToken: string, rest: string)
    requires ' ' !in methodToken && '\n' !in methodToken
    requires ' ' !in target && '\n' !in target
    requires ' ' !in versionToken && '\n' !in versionToken
    requires versionToken != [] && !IsWhitespace(versionToken[|versionToken| - 1])
    ensures var first := (methodToken + " " + target + " " + versionToken) + "\r\n";
      && ReadLine(first + rest) == first && |first| <= |first + rest| && (first + rest)[|first|..] == rest
      && RequestLineTokens(first + rest) == [methodToken, target, versionToken]
  {
    var requestLine := methodToken + " " + target + " " + versionToken;
    RequestLineTokensOf(methodToken, target, versionToken);
    RequestLineEnds(methodToken, target, versionToken);
    RequestLineOfText(requestLine, rest);
  }

  /** `ParseRequest` on text whose first line has tokens naming a method, a
      target and a version, and whose remainder the header loop reads to
      `headers` and `body`. */
  lemma ParseRequestOf(
    data: string, first: string, rest: string, m: Method, target: string, v: Version,
    headers: Headers, body: string)
    requires ReadLine(data) == first && |first| <= |data| && data[|first|..] == rest
    requires var head := RequestLineTokens(data);
      && |head| >= 3 && head[1] == target
      && ParseMethod(head[0]) == Success(m) && ParseVersion(head[2]) == Success(v)
    requires ReadHeaders(rest, map[]) == (headers, body)
    ensures ParseRequest(data)
         == Success(Request(m, target, v, headers, if body == [] then None else Some(body)))
  {
  }

  /** The first line of a request line written with CRLF and followed by
      more text is that line, and its tokens are those of the request line. */
  lemma RequestLineOfText(requestLine: string, rest: string)
    requires '\n' !in requestLine && requestLine != [] && !IsWhitespace(requestLine[|requestLine| - 1])
    ensures var data := requestLine + "\r\n" + rest;
      && ReadLine(data) == requestLine + "\r\n"
      && data[|requestLine + "\r\n"|..] == rest
      && RequestLineTokens(data) == Split(requestLine, ' ')
  {
    var first := requestLine + "\r\n";
    TerminatedLine(requestLine);
    ReadLineOfLine(first, rest);
    assert (first + rest)[|first|..] == rest;
    TrimEndOfTerminator(requestLine, "\r\n");
  }

  /** A request line written from tokens without line feeds, the last one
      ending in a non-whitespace character, holds no line feed and ends in
      that character. */
  lemma RequestLineEnds(methodToken: string, target: string, versionToken: string)
    requires '\n' !in methodToken && '\n' !in target && '\n' !in versionToken
    requires versionToken != [] && !IsWhitespace(versionToken[|versionToken| - 1])
    ensures var requestLine := methodToken + " " + target + " " + versionToken;
      && '\n' !in requestLine && requestLine != []
      && !IsWhitespace(requestLine[|requestLine| - 1])
  {
    var requestLine := methodToken + " " + target + " " + versionToken;
    assert requestLine[|requestLine| - 1] == versionToken[|versionToken| - 1];
  }

  /** `x` followed by CRLF is one whole line. */
  lemma TerminatedLine(x: string)
    requires '\n' !in x
    ensures IsLine(x + "\r\n") && EndsWithNewline(x + "\r\n")
  {
    assert (x + "\r\n")[..|x| + 1] == x + "\r";
  }

  /** A request line written from three tokens splits back into them. */
  lemma RequestLineTokensOf(methodToken: string, target: string, versionToken: string)
    requires ' ' !in methodToken && ' ' !in target && ' ' !in versionToken
    ensures Split(methodToken + " " + target + " " + versionToken, ' ') == [methodToken, target, versionToken]
  {
    var tokens := [methodToken, target, versionToken];
    JoinThree(methodToken, target, versionToken, ' ');
    SplitJoin(tokens, ' ');
  }

  /** A token spelled like a method or version name holds no whitespace. */
  lemma TokenHasNoSeparators(token: string, name: string)
    requires SpellsIgnoringCase(token, name)
    requires name == MethodToken(GET) || name == MethodToken(POST) || name == MethodToken(PATCH)
          || name == MethodToken(DELETE) || name == VersionToken(HTTP1_1)
          || name == VersionToken(HTTP2) || name == VersionToken(HTTP3)
    ensures forall i :: 0 <= i < |token| ==> !IsWhitespace(token[i])
    ensures |token| > 0 && ' ' !in token && '\n' !in token
  {
  }

  lemma TrimOfNoWhitespace(s: string)
    requires forall i :: 0 <= i < |s| ==> !IsWhitespace(s[i])
    ensures Trim(s, Whitespace) == s
  {
    TrimStartAt(s, Whitespace, 0);
    TrimEndAt(s, Whitespace, |s|);
  }

  /** Trailing whitespace after text that ends in a non-whitespace character
      is exactly what `trim_end` removes. */
  lemma TrimEndOfTerminator(x: string, w: string)
    requires x != [] && !IsWhitespace(x[|x| - 1])
    requires AllIn(w, Whitespace)
    ensures TrimEnd(x + w, Whitespace) == x
  {
    assert (x + w)[|x| - 1] == x[|x| - 1];
    TrimEndAt(x + w, Whitespace, |x|);
    assert (x + w)[..|x|] == x;
  }

  /** The header loop over written fields, an empty line and a body returns
      the fields inserted in order and the body. */
  lemma {:induction false} ReadFieldSection(fields: seq<(string, string)>, body: string, acc: Headers)
    requires forall i :: 0 <= i < |fields| ==> WellFormedField(fields[i])
    ensures ReadHeaders(FieldLinesText(fields) + "\r\n" + body, acc) == (InsertAll(acc, Classified(fields)), body)
    decreases |fields|
  {
    if fields == [] {
      ReadEndOfSection(body, acc);
    } else {
      ReadFieldSection(fields[1..], body, AddField(acc, FieldLine(fields[0])));
      ReadFieldSectionStep(fields, body, acc);
    }
  }

  /** The empty line ends the header section at once. */
  lemma ReadEndOfSection(body: string, acc: Headers)
    ensures ReadHeaders(FieldLinesText([]) + "\r\n" + body, acc) == (InsertAll(acc, Classified([])), body)
  {
    assert FieldLinesText([]) + "\r\n" + body == "\r\n" + body;
    assert IsBlank("\r\n");
    ReadBlankLine("\r\n", body, acc);
  }

  /** Reading the first written field line reduces the section to the rest. */
  lemma ReadFieldSectionStep(fields: seq<(string, string)>, body: string, acc: Headers)
    requires fields != [] && WellFormedField(fields[0])
    requires var acc' := AddField(acc, FieldLine(fields[0]));
      ReadHeaders(FieldLinesText(fields[1..]) + "\r\n" + body, acc')
      == (InsertAll(acc', Classified(fields[1..])), body)
    ensures ReadHeaders(FieldLinesText(fields) + "\r\n" + body, acc) == (InsertAll(acc, Classified(fields)), body)
  {
    var more := FieldLinesText(fields[1..]) + "\r\n" + body;
    FieldLinesTextCons(fields, body);
    ReadFieldLine(fields[0], more, acc);
    ReadInsertStep(FieldLine(fields[0]), more, acc, Entry(fields[0]), Classified(fields[1..]), body);
  }

  lemma FieldLinesTextCons(fields: seq<(string, string)>, body: string)
    requires fields != []
    ensures FieldLinesText(fields) + "\r\n" + body
         == FieldLine(fields[0]) + (FieldLinesText(fields[1..]) + "\r\n" + body)
  {
  }

  /** The header loop reading one field line and then the rest of the
      section inserts that line's entry ahead of the rest. */
  lemma ReadInsertStep(
    line: string, more: string, acc: Headers, entry: (HeaderName, string),
    entries: seq<(HeaderName, string)>, body: string)
    requires ReadHeaders(line + more, acc) == ReadHeaders(more, AddField(acc, line))
    requires AddField(acc, line) == acc[entry.0 := entry.1]
    requires ReadHeaders(more, AddField(acc, line)) == (InsertAll(AddField(acc, line), entries), body)
    ensures ReadHeaders(line + more, acc) == (InsertAll(acc, [entry] + entries), body)
  {
    InsertAllCons(acc, Some(entry), entries);
  }

  /** One written field line: read whole, not blank, and adds its field. */
  lemma ReadFieldLine(field: (string, string), more: string, acc: Headers)
    requires WellFormedField(field)
    ensures var line := FieldLine(field);
      && ReadHeaders(line + more, acc) == ReadHeaders(more, AddField(acc, line))
      && AddField(acc, line) == acc[ParseHeaderName(field.0) := Trim(field.1, Whitespace)]
  {
    var line := FieldLine(field);
    FieldLineIsLine(field);
    ReadFilledLine(line, more, acc);
    FieldOfFieldLine(field);
    AddFieldOf(line, Entry(field), acc);
  }

  lemma AddFieldOf(line: string, entry: (HeaderName, string), acc: Headers)
    requires FieldOf(line) == Some(entry)
    ensures AddField(acc, line) == acc[entry.0 := entry.1]
  {
  }

  /** A blank line ends the header loop; the text after it is left. */
  lemma ReadBlankLine(line: string, rest: string, acc: Headers)
    requires IsLine(line) && EndsWithNewline(line) && IsBlank(line)
    ensures ReadHeaders(line + rest, acc) == (acc, rest)
  {
    ReadLineOfLine(line, rest);
    assert (line + rest)[|line|..] == rest;
    TrimEmptyIff(line, Whitespace);
  }

  /** Any other line adds its field and the loop goes on after it. */
  lemma ReadFilledLine(line: string, rest: string, acc: Headers)
    requires IsLine(line) && EndsWithNewline(line) && !IsBlank(line)
    ensures ReadHeaders(line + rest, acc) == ReadHeaders(rest, AddField(acc, line))
  {
    ReadLineOfLine(line, rest);
    assert (line + rest)[|line|..] == rest;
    TrimEmptyIff(line, Whitespace);
  }

  lemma FieldLineIsLine(field: (string, string))
    requires WellFormedField(field)
    ensures IsLine(FieldLine(field)) && EndsWithNewline(FieldLine(field)) && !IsBlank(FieldLine(field))
  {
    var line := FieldLine(field);
    assert line[..|line| - 1] == field.0 + ":" + field.1 + "\r";
    assert line[|field.0|] == ':';
  }

  /** The field of a written field line is the written name and value. */
  lemma FieldOfFieldLine(field: (string, string))
    requires WellFormedField(field)
    ensures FieldOf(FieldLine(field)) == Some(Entry(field))
  {
    var line := FieldLine(field);
    var (name, value) := field;
    IndexOfAfter(name, ':', value + "\r\n");
    assert line == name + [':'] + (value + "\r\n");
    assert line[..|name|] == name;
    assert line[|name| + 1..] == value + "\r\n";
    TrimAppendAll(value, "\r\n", Whitespace);
  }
}
