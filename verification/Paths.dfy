/** Store keys: an id joined to a prefix and cleaned, as Go's path.Join does for relative paths. */
module Paths {
  import opened Text

  /** One more segment on a cleaned path. */
  function Push(path: seq<string>, segment: string): seq<string> {
    if segment == "" || segment == "." then path
    else if segment == ".." && path != [] && path[|path| - 1] != ".." then path[..|path| - 1]
    else path + [segment]
  }

  function Walk(path: seq<string>, segments: seq<string>): seq<string>
    decreases |segments|
  {
    if segments == [] then path else Walk(Push(path, segments[0]), segments[1..])
  }

  /** The key of an id under a cleaned prefix. */
  function KeyOf(prefix: seq<string>, id: string): seq<string> { Walk(prefix, Split(id, '/')) }

  /** An id that is one segment of a path by itself. */
  predicate Plain(id: string) { '/' !in id && id != "" && id != "." && id != ".." }

  lemma WalkOn(path: seq<string>, segment: string, rest: seq<string>)
    ensures Walk(path, [segment] + rest) == Walk(Push(path, segment), rest)
  {
    assert ([segment] + rest)[1..] == rest;
  }

  lemma SplitPlain(id: string)
    requires '/' !in id
    ensures Split(id, '/') == [id]
  {
    SplitJoin([id], '/');
  }

  /** A plain id has a key of its own, right under the prefix. */
  lemma PlainKey(prefix: seq<string>, id: string)
    requires Plain(id)
    ensures KeyOf(prefix, id) == prefix + [id]
  {
    SplitPlain(id);
    WalkOn(prefix, id, []);
    assert [id] + [] == [id];
  }

  /** So different plain ids have different keys. */
  lemma PlainKeysDiffer(prefix: seq<string>, a: string, b: string)
    requires Plain(a) && Plain(b)
    ensures KeyOf(prefix, a) == KeyOf(prefix, b) <==> a == b
  {
    PlainKey(prefix, a);
    PlainKey(prefix, b);
    assert (prefix + [a])[|prefix|] == a && (prefix + [b])[|prefix|] == b;
  }

  lemma DetourText(x: string, id: string)
    ensures Join([x, "..", id], '/') == x + "/../" + id
  {
    assert [x, "..", id][1..] == ["..", id];
    JoinTwo("..", id, '/');
    assert x + ['/'] + (".." + ['/'] + id) == x + "/../" + id;
  }

  /** Other ids can have the key of a plain one: a detour leads back to it. */
  lemma DetourKey(prefix: seq<string>, x: string, id: string)
    requires Plain(x) && Plain(id)
    ensures KeyOf(prefix, x + "/../" + id) == KeyOf(prefix, id)
  {
    var segments := [x, "..", id];
    DetourText(x, id);
    SplitJoin(segments, '/');
    PlainKey(prefix, id);
    SplitPlain(id);
    WalkOn(prefix, x, ["..", id]);
    WalkOn(prefix + [x], "..", [id]);
    assert [x] + ["..", id] == segments && [".."] + [id] == ["..", id];
    assert Push(prefix, x) == prefix + [x];
    assert Push(prefix + [x], "..") == prefix;
  }

  /** Empty and dot segments vanish, and a parent step at the top of a relative path stays. */
  lemma CleaningLaws(prefix: seq<string>)
    ensures KeyOf(prefix, "") == prefix && KeyOf(prefix, ".") == prefix
    ensures prefix != [] && prefix[|prefix| - 1] != ".." ==> KeyOf(prefix, "..") == prefix[..|prefix| - 1]
    ensures KeyOf([], "..") == [".."]
  {
    SplitPlain("");
    SplitPlain(".");
    SplitPlain("..");
    assert [""] == [""] + [] && ["."] == ["."] + [] && [".."] == [".."] + [];
    WalkOn(prefix, "", []);
    WalkOn(prefix, ".", []);
    WalkOn(prefix, "..", []);
    WalkOn([], "..", []);
  }
}
