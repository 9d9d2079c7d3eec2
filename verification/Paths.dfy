/** The materialized path `/id/id/` of a folder and the string operations on it. */
module Paths {
  import opened Base
  import Like

  const MAX_FOLDER_DEPTH := 20

  function BuildChildPath(parentPath: Option<string>, childId: string): string {
    (if parentPath.Some? then parentPath.value else "/") + childId + "/"
  }

  /** String.split('/') */
  function Split(s: string): (segments: seq<string>)
    ensures segments != []
  {
    if s == "" then [""]
    else
      var rest := Split(s[1..]);
      if s[0] == '/' then [""] + rest else [[s[0]] + rest[0]] + rest[1..]
  }

  function NonEmpty(segments: seq<string>): seq<string> {
    if segments == [] then []
    else if segments[0] == "" then NonEmpty(segments[1..])
    else [segments[0]] + NonEmpty(segments[1..])
  }

  function ParseIds(path: string): seq<string> {
    NonEmpty(Split(path))
  }

  function Depth(path: Option<string>): nat {
    if path.None? then 0 else |ParseIds(path.value)|
  }

  predicate IsDescendantOrSelf(path: string, ancestorPath: string) {
    ancestorPath <= path
  }

  function SubtreePattern(path: string): string {
    path + "%"
  }

  /** replace(path, '/', '') */
  function WithoutSlashes(s: string): string {
    if s == "" then ""
    else if s[0] == '/' then WithoutSlashes(s[1..])
    else [s[0]] + WithoutSlashes(s[1..])
  }

  /** length(path) - length(replace(path, '/', '')) - 1 */
  function SlashDepth(path: string): int {
    |path| - |WithoutSlashes(path)| - 1
  }

  /** segments.join('/') */
  function Join(segments: seq<string>): string
    requires segments != []
  {
    if |segments| == 1 then segments[0] else segments[0] + ['/'] + Join(segments[1..])
  }

  /** Splitting cuts at every slash and only there: joining undoes it, and no segment holds a slash. */
  lemma {:induction false} SplitJoins(s: string)
    ensures Join(Split(s)) == s
    ensures forall k :: 0 <= k < |Split(s)| ==> '/' !in Split(s)[k]
  {
    if s == "" {
    } else {
      SplitJoins(s[1..]);
      var rest := Split(s[1..]);
      if s[0] == '/' {
        assert ([""] + rest)[1..] == rest;
        assert "" + ['/'] + Join(rest) == s;
      } else {
        assert ([[s[0]] + rest[0]] + rest[1..])[1..] == rest[1..];
        assert s == [s[0]] + s[1..];
        if |rest| > 1 {
          Like.ConcatAssociates([s[0]], rest[0], ['/'] + Join(rest[1..]));
          Like.ConcatAssociates([s[0]] + rest[0], ['/'], Join(rest[1..]));
          Like.ConcatAssociates(rest[0], ['/'], Join(rest[1..]));
        }
      }
    }
  }

  /** A path is a slash, and for each id of the chain the id and one more slash. */
  lemma RenderText(ids: seq<Id>, i: Id)
    ensures Render([]) == "/" && Render(ids + [i]) == Render(ids) + i + "/"
  {
    assert (ids + [i])[..|ids|] == ids;
  }

  /** The path of a chain of ids, root first, as repeated BuildChildPath calls produce it. */
  function Render(ids: seq<Id>): string {
    if ids == [] then "/"
    else BuildChildPath(Some(Render(ids[..|ids| - 1])), ids[|ids| - 1])
  }

  // ---- parsing undoes building ----

  lemma {:induction false} NonEmptyConcat(a: seq<string>, b: seq<string>)
    ensures NonEmpty(a + b) == NonEmpty(a) + NonEmpty(b)
  {
    if a == [] {
      assert a + b == b;
    } else {
      var head, tail := a[0], a[1..];
      var kept := if head == "" then [] else [head];
      NonEmptyConcat(tail, b);
      NonEmptyStep(head, tail);
      NonEmptyStep(head, tail + b);
      assert a == [head] + tail;
      Like.ConcatAssociates([head], tail, b);
      Like.ConcatAssociates(kept, NonEmpty(tail), NonEmpty(b));
    }
  }

  lemma NonEmptyStep(segment: string, rest: seq<string>)
    ensures NonEmpty([segment] + rest) == (if segment == "" then [] else [segment]) + NonEmpty(rest)
  {
    assert ([segment] + rest)[1..] == rest;
  }

  lemma SplitStep(c: char, s: string)
    ensures Split([c] + s)
            == if c == '/' then [""] + Split(s) else [[c] + Split(s)[0]] + Split(s)[1..]
  {
  }

  lemma {:induction false} SplitConcat(p: string, q: string)
    ensures Split(p + (['/'] + q)) == Split(p) + Split(q)
  {
    if p == "" {
      assert p + (['/'] + q) == ['/'] + q;
      SplitStep('/', q);
    } else {
      var c, tail := p[0], p[1..];
      assert p == [c] + tail && p + (['/'] + q) == [c] + (tail + (['/'] + q));
      SplitConcat(tail, q);
      SplitStep(c, tail);
      SplitStep(c, tail + (['/'] + q));
      HeadOfConcat(Split(tail), Split(q), [c]);
    }
  }

  lemma HeadOfConcat(a: seq<string>, b: seq<string>, x: string)
    requires a != []
    ensures [""] + (a + b) == [""] + a + b
    ensures [x + (a + b)[0]] + (a + b)[1..] == [x + a[0]] + a[1..] + b
  {
  }

  /** Parsing distributes over a slash. */
  lemma ParseConcat(p: string, q: string)
    ensures ParseIds(p + "/" + q) == ParseIds(p) + ParseIds(q)
  {
    SplitConcat(p, q);
    assert p + "/" + q == p + (['/'] + q);
    NonEmptyConcat(Split(p), Split(q));
  }

  lemma {:induction false} SplitSegment(x: string)
    requires '/' !in x
    ensures Split(x) == [x]
  {
    if x == "" {
    } else {
      assert '/' !in x[1..];
      SplitSegment(x[1..]);
      assert [x[0]] + x[1..] == x;
    }
  }

  lemma ParseSegment(id: Id)
    ensures ParseIds(id + "/") == [id]
  {
    assert '/' !in id;
    SplitSegment(id);
    ParseConcat(id, "");
    assert id + "/" + "" == id + "/";
    assert NonEmpty([id]) == [id] + NonEmpty([]);
  }

  lemma RenderEndsInSlash(ids: seq<Id>)
    ensures Render(ids) != "" && Render(ids)[|Render(ids)| - 1] == '/'
  {
  }

  /** What follows a slash-terminated text is parsed on its own. */
  lemma ParseAfterSlash(p: string, q: string)
    requires p != "" && p[|p| - 1] == '/'
    ensures ParseIds(p + q) == ParseIds(p) + ParseIds(q)
  {
    var p' := p[..|p| - 1];
    assert p == p' + "/" && p == p' + "/" + "";
    assert p + q == p' + "/" + q;
    ParseConcat(p', q);
    ParseConcat(p', "");
  }

  /** Building a child path appends one id. */
  lemma ParseChildPath(path: string, id: Id)
    requires path != "" && path[|path| - 1] == '/'
    ensures ParseIds(BuildChildPath(Some(path), id)) == ParseIds(path) + [id]
  {
    ParseAfterSlash(path, id + "/");
    assert path + id + "/" == path + (id + "/");
    ParseSegment(id);
  }

  lemma {:induction false} ParseRender(ids: seq<Id>)
    ensures ParseIds(Render(ids)) == ids
  {
    if ids == [] {
      assert Split("/") == [""] + Split("");
    } else {
      var front, last := ids[..|ids| - 1], ids[|ids| - 1];
      ParseRender(front);
      RenderEndsInSlash(front);
      ParseChildPath(Render(front), last);
      assert ids == front + [last];
    }
  }

  // ---- prefixes of paths are prefixes of chains ----

  lemma {:induction false} RenderExtends(a: seq<Id>, b: seq<Id>)
    ensures Render(a) <= Render(a + b)
  {
    if b == [] {
      assert a + b == a;
    } else {
      var front, last := b[..|b| - 1], b[|b| - 1];
      RenderExtends(a, front);
      assert (a + b)[..|a + b| - 1] == a + front;
      assert (a + b)[|a + b| - 1] == last;
    }
  }

  /** The startsWith test on paths decides the prefix order on id chains. */
  lemma RenderPrefix(a: seq<Id>, b: seq<Id>)
    ensures Render(a) <= Render(b) <==> a <= b
  {
    if a <= b {
      RenderExtends(a, b[|a|..]);
      assert b == a + b[|a|..];
    }
    if Render(a) <= Render(b) {
      var rest := Render(b)[|Render(a)|..];
      assert Render(b) == Render(a) + rest;
      RenderEndsInSlash(a);
      ParseAfterSlash(Render(a), rest);
      ParseRender(a);
      ParseRender(b);
      assert b == a + ParseIds(rest);
    }
  }

  lemma {:induction false} RenderIsPlain(ids: seq<Id>)
    ensures forall k :: 0 <= k < |Render(ids)| ==> !Like.IsSpecial(Render(ids)[k])
  {
    if ids == [] {
    } else {
      RenderIsPlain(ids[..|ids| - 1]);
      var last := ids[|ids| - 1];
      assert forall k :: 0 <= k < |last| ==> IsIdChar(last[k]);
      assert Render(ids) == Render(ids[..|ids| - 1]) + last + "/";
    }
  }

  /** The LIKE form of the subtree query decides the same order. */
  lemma LikePrefix(a: seq<Id>, b: seq<Id>)
    ensures Like.Matches(Render(b), SubtreePattern(Render(a))) <==> a <= b
  {
    RenderIsPlain(a);
    Like.PlainPrefix(Render(b), Render(a));
    RenderPrefix(a, b);
  }

  // ---- the slash count is the depth ----

  lemma {:induction false} WithoutSlashesConcat(a: string, b: string)
    ensures WithoutSlashes(a + b) == WithoutSlashes(a) + WithoutSlashes(b)
  {
    if a == "" {
      assert a + b == b;
    } else {
      WithoutSlashesConcat(a[1..], b);
      assert (a + b)[0] == a[0] && (a + b)[1..] == a[1..] + b;
      assert [a[0]] + (WithoutSlashes(a[1..]) + WithoutSlashes(b)) == [a[0]] + WithoutSlashes(a[1..]) + WithoutSlashes(b);
    }
  }

  lemma {:induction false} WithoutSlashesPlain(s: string)
    requires '/' !in s
    ensures WithoutSlashes(s) == s
  {
    if s == "" {
    } else {
      WithoutSlashesPlain(s[1..]);
    }
  }

  lemma {:induction false} SlashDepthRender(ids: seq<Id>)
    ensures SlashDepth(Render(ids)) == |ids|
  {
    if ids == [] {
      assert WithoutSlashes("/") == WithoutSlashes("");
    } else {
      var front, last := ids[..|ids| - 1], ids[|ids| - 1];
      SlashDepthRender(front);
      assert '/' !in last;
      WithoutSlashesPlain(last);
      WithoutSlashesConcat(Render(front) + last, "/");
      WithoutSlashesConcat(Render(front), last);
      assert WithoutSlashes("/") == WithoutSlashes("");
    }
  }

  /** Path strings are a faithful code for id chains. */
  lemma PathCode(a: seq<Id>, b: seq<Id>)
    ensures ParseIds(Render(a)) == a
    ensures SlashDepth(Render(a)) == Depth(Some(Render(a))) == |a|
    ensures IsDescendantOrSelf(Render(b), Render(a)) <==> a <= b
    ensures Like.Matches(Render(b), SubtreePattern(Render(a))) <==> a <= b
    ensures Render(a) == Render(b) <==> a == b
  {
    ParseRender(a);
    ParseRender(b);
    SlashDepthRender(a);
    RenderPrefix(a, b);
    LikePrefix(a, b);
  }
}
