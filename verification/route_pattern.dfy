/** `RoutePattern` and `match_path`: a route schema such as `/posts/{id}` cut
    into segments, and a path matched against it segment by segment, with
    every `{name}` segment capturing the path segment in its place. In the
    source this code is commented out and `Router::handle` does not use it;
    here it is a stand-alone pure function as well. */
module RoutePattern {
  import opened Wrappers
  import opened Strings

  /** `RouteSegment`. */
  datatype Segment = Static(text: string) | Param(name: string)

  datatype RoutePattern = RoutePattern(segments: seq<Segment>)

  /** Path parameters by name. */
  type Params = map<string, string>

  /** `starts_with('{') && ends_with('}')`. */
  predicate IsPlaceholder(s: string) {
    |s| > 0 && s[0] == '{' && s[|s| - 1] == '}'
  }

  /** One schema segment: a placeholder names the text between its braces,
      anything else is literal. */
  function ParseSegment(s: string): (seg: Segment)
    ensures seg.Param? <==> IsPlaceholder(s)
    ensures seg.Param? ==> |s| >= 2 && s == "{" + seg.name + "}"
    ensures seg.Static? ==> seg.text == s
  {
    if IsPlaceholder(s) then Param(s[1..|s| - 1]) else Static(s)
  }

  /** The segments of schema pieces, one for one. */
  function Segments(pieces: seq<string>): (segs: seq<Segment>)
    ensures |segs| == |pieces|
    ensures forall i :: 0 <= i < |pieces| ==> segs[i] == ParseSegment(pieces[i])
  {
    if pieces == [] then [] else [ParseSegment(pieces[0])] + Segments(pieces[1..])
  }

  /** The pieces of a schema or a path: slashes trimmed from both ends, then
      split at every slash. Empty pieces stay. */
  function Pieces(s: string): (pieces: seq<string>)
    ensures |pieces| >= 1
    ensures forall i :: 0 <= i < |pieces| ==> '/' !in pieces[i]
    ensures Join(pieces, '/') == Trim(s, Only('/'))
  {
    Split(Trim(s, Only('/')), '/')
  }

  /** `RoutePattern::new`. */
  function NewPattern(schema: string): (p: RoutePattern)
    ensures |p.segments| == |Pieces(schema)|
    ensures forall i :: 0 <= i < |p.segments| ==> p.segments[i] == ParseSegment(Pieces(schema)[i])
  {
    RoutePattern(Segments(Pieces(schema)))
  }

  // ---------------------------------------------------------------------------
  // Matching
  // ---------------------------------------------------------------------------

  /** A segment accepts a path piece: a placeholder any, a literal only itself. */
  predicate Fits(seg: Segment, piece: string) {
    seg.Param? || seg.text == piece
  }

  /** Some segment is the placeholder `name`. */
  predicate Binds(segs: seq<Segment>, name: string) {
    exists i :: 0 <= i < |segs| && segs[i] == Param(name)
  }

  /** No later segment is the same placeholder as segment `i`. */
  predicate IsLastBinding(segs: seq<Segment>, i: nat)
    requires i < |segs| && segs[i].Param?
  {
    forall j :: i < j < |segs| ==> segs[j] != segs[i]
  }

  /** The loop of `match_path` over the zipped segments and pieces, starting
      from the captures in `acc`: it fails at the first literal that differs
      from its piece; otherwise every placeholder captures its piece, and a
      placeholder named twice keeps the later capture. */
  function MatchSegments(segs: seq<Segment>, pieces: seq<string>, acc: Params): (r: Option<Params>)
    requires |segs| == |pieces|
    ensures r.Some? <==> forall i :: 0 <= i < |segs| ==> Fits(segs[i], pieces[i])
    ensures r.Some? ==> forall k :: k in r.value <==> k in acc || Binds(segs, k)
    ensures r.Some? ==> forall i :: 0 <= i < |segs| && segs[i].Param? && IsLastBinding(segs, i) ==>
      segs[i].name in r.value && r.value[segs[i].name] == pieces[i]
    ensures r.Some? ==> forall k :: k in acc && !Binds(segs, k) ==> r.value[k] == acc[k]
    decreases |segs|
  {
    if segs == [] then Some(acc)
    else
      var next := match segs[0] case Param(name) => acc[name := pieces[0]] case Static(_) => acc;
      if !Fits(segs[0], pieces[0]) then None
      else
        var r := MatchSegments(segs[1..], pieces[1..], next);
        MatchSegmentsStep(segs, pieces);
        r
  }

  /** How the facts about `segs` relate to those about `segs[1..]`. */
  lemma MatchSegmentsStep(segs: seq<Segment>, pieces: seq<string>)
    requires |segs| == |pieces| && segs != []
    ensures (forall i :: 0 <= i < |segs| ==> Fits(segs[i], pieces[i]))
        <==> Fits(segs[0], pieces[0]) && forall i :: 0 <= i < |segs| - 1 ==> Fits(segs[1..][i], pieces[1..][i])
    ensures forall k :: Binds(segs, k) <==> segs[0] == Param(k) || Binds(segs[1..], k)
    ensures forall i :: 0 < i < |segs| && segs[i].Param? && IsLastBinding(segs, i) ==>
      segs[1..][i - 1].Param? && IsLastBinding(segs[1..], i - 1)
    ensures segs[0].Param? && IsLastBinding(segs, 0) ==> !Binds(segs[1..], segs[0].name)
  {
    var rest := segs[1..];
    assert forall i :: 0 < i < |segs| ==> segs[i] == rest[i - 1];
    forall k ensures Binds(segs, k) ==> segs[0] == Param(k) || Binds(rest, k) {
      if Binds(segs, k) {
        var i :| 0 <= i < |segs| && segs[i] == Param(k);
        if i > 0 {
          assert rest[i - 1] == Param(k);
        }
      }
    }
    forall k ensures Binds(rest, k) ==> Binds(segs, k) {
      if Binds(rest, k) {
        var i :| 0 <= i < |rest| && rest[i] == Param(k);
        assert segs[i + 1] == Param(k);
      }
    }
  }

  /** `match_path`: no match unless the path has as many pieces as the
      pattern has segments and every literal equals its piece; on a match,
      the captured names are exactly the placeholders' and each holds the
      piece under its last occurrence. */
  function MatchPath(p: RoutePattern, path: string): (r: Option<Params>)
    ensures var pieces := Pieces(path);
      r.Some? <==> |pieces| == |p.segments| && forall i :: 0 <= i < |pieces| ==> Fits(p.segments[i], pieces[i])
    ensures r.Some? ==> forall k :: k in r.value <==> Binds(p.segments, k)
    ensures r.Some? ==> forall i :: 0 <= i < |p.segments| && p.segments[i].Param? && IsLastBinding(p.segments, i) ==>
      p.segments[i].name in r.value && r.value[p.segments[i].name] == Pieces(path)[i]
  {
    var pieces := Pieces(path);
    if |pieces| != |p.segments| then None
    else MatchSegments(p.segments, pieces, map[])
  }

  // ---------------------------------------------------------------------------
  // Properties
  // ---------------------------------------------------------------------------

  /** A pattern without placeholders captures nothing when it matches. */
  lemma MatchLiteralPattern(p: RoutePattern, path: string)
    requires forall i :: 0 <= i < |p.segments| ==> p.segments[i].Static?
    requires MatchPath(p, path).Some?
    ensures MatchPath(p, path) == Some(map[])
  {
    var r := MatchPath(p, path).value;
    forall k ensures k !in r {
      assert !Binds(p.segments, k);
    }
    assert r == map[];
  }

  /** Slashes around a path do not change its pieces. */
  lemma PiecesIgnoreSlashes(s: string)
    ensures Pieces("/" + s) == Pieces(s)
    ensures Pieces(s + "/") == Pieces(s)
  {
    TrimCons('/', s, Only('/'));
    assert "/" + s == ['/'] + s;
    TrimSnoc(s, '/', Only('/'));
    assert s + "/" == s + ['/'];
  }

  /** A leading or trailing slash on the path never changes the match. */
  lemma MatchIgnoresSlashes(p: RoutePattern, path: string)
    ensures MatchPath(p, "/" + path) == MatchPath(p, path)
    ensures MatchPath(p, path + "/") == MatchPath(p, path)
  {
    PiecesIgnoreSlashes(path);
  }

  /** A leading or trailing slash on the schema never changes the pattern. */
  lemma PatternIgnoresSlashes(schema: string)
    ensures NewPattern("/" + schema) == NewPattern(schema)
    ensures NewPattern(schema + "/") == NewPattern(schema)
  {
    PiecesIgnoreSlashes(schema);
  }

  /** Every schema matches its own text: each literal equals itself and each
      placeholder captures its own braces. */
  lemma {:induction false} SchemaMatchesItself(schema: string)
    ensures var p := NewPattern(schema);
      && MatchPath(p, schema).Some?
      && forall i :: 0 <= i < |p.segments| && p.segments[i].Param? && IsLastBinding(p.segments, i) ==>
           MatchPath(p, schema).value[p.segments[i].name] == "{" + p.segments[i].name + "}"
  {
    var p := NewPattern(schema);
    var pieces := Pieces(schema);
    forall i | 0 <= i < |pieces| ensures Fits(p.segments[i], pieces[i]) {
      assert p.segments[i] == ParseSegment(pieces[i]);
    }
  }

  /** A literal followed by a placeholder (`/posts/{id}`) matches a path of
      that literal and one more piece (`/posts/1`), capturing the piece. */
  lemma MatchLiteralThenPlaceholder(p: RoutePattern, path: string, a: string, name: string, x: string)
    requires p.segments == [Static(a), Param(name)] && Pieces(path) == [a, x]
    ensures MatchPath(p, path) == Some(map[name := x])
  {
    var segs := p.segments;
    assert Fits(segs[0], a) && Fits(segs[1], x);
    var r := MatchPath(p, path).value;
    assert IsLastBinding(segs, 1);
    forall k ensures k in r <==> k == name {
      assert Binds(segs, k) <==> segs[1] == Param(k);
    }
    assert r.Keys == {name};
    assert r[name] == x;
    assert r == map[name := x];
  }

  /** A path with more pieces than the pattern has segments
      (`/posts/1/extra` against `/posts/{id}`) never matches, whatever the
      segments say. */
  lemma MatchExtraPieces(p: RoutePattern, path: string)
    requires |Pieces(path)| > |p.segments|
    ensures MatchPath(p, path) == None
  {
  }
}
