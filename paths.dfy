/** Pure POSIX paths (`pathlib.PurePosixPath`) reduced to what the sidecar naming uses. */
module Paths {
  import opened Text

  /** A parsed path: whether it starts at the root `/`, then its components in order.
      Parsing has already dropped empty and `.` components. */
  datatype Path = Path(absolute: bool, parts: seq<string>)

  /** Each component is a non-empty name without a separator, and not `.`. */
  predicate WellFormed(p: Path) {
    forall i :: 0 <= i < |p.parts| ==> IsComponent(p.parts[i])
  }

  predicate IsComponent(name: string) {
    name != "" && name != "." && '/' !in name
  }

  /** `Path.name`: the final component, or "" for `/` and `.`. */
  function Name(p: Path): (r: string)
    ensures p.parts != [] ==> r == p.parts[|p.parts| - 1]
    ensures p.parts == [] ==> r == ""
  {
    if p.parts == [] then "" else p.parts[|p.parts| - 1]
  }

  /** `Path.parent`: the path without its final component; `/` and `.` are their own parent. */
  function Parent(p: Path): (r: Path)
    ensures r.absolute == p.absolute
    ensures p.parts == [] ==> r == p
    ensures p.parts != [] ==> r.parts + [Name(p)] == p.parts
  {
    if p.parts == [] then p else Path(p.absolute, p.parts[..|p.parts| - 1])
  }

  /** `i` is the position of the last `.` in `name`. */
  predicate IsLastDot(name: string, i: int) {
    0 <= i < |name| && name[i] == '.' && forall j :: i < j < |name| ==> name[j] != '.'
  }

  /** `name.rfind('.')`: the index of the last dot, or -1. */
  function LastDot(name: string): (r: int)
    ensures -1 <= r < |name|
    ensures r >= 0 ==> IsLastDot(name, r)
    ensures r == -1 <==> '.' !in name
  {
    if name == [] then -1
    else if name[|name| - 1] == '.' then |name| - 1
    else LastDot(name[..|name| - 1])
  }

  /** `PurePath.stem` of a final component: the name without its last suffix. A dot
      that starts the name or ends it does not begin a suffix. */
  function Stem(name: string): (r: string)
    ensures r <= name
    ensures r != name <==> exists i :: 0 < i < |name| - 1 && IsLastDot(name, i)
    ensures r != name ==> IsLastDot(name, |r|)
  {
    var i := LastDot(name);
    if 0 < i < |name| - 1 then name[..i] else name
  }

  /** `str(p)`: components joined by `/`, a leading `/` when absolute, `.` when empty. */
  function PathText(p: Path): (r: string)
    ensures p.absolute ==> |r| > 0 && r[0] == '/'
    ensures WellFormed(p) ==> r != ""
  {
    if p.absolute then "/" + Join("/", p.parts)
    else if p.parts == [] then "."
    else Join("/", p.parts)
  }

  /** The pieces `PurePosixPath` keeps when it parses a path: empty and `.` pieces
      are dropped. */
  function Components(pieces: seq<string>): (r: seq<string>)
    ensures |r| <= |pieces|
  {
    if pieces == [] then []
    else (if pieces[0] == "" || pieces[0] == "." then [] else [pieces[0]]) + Components(pieces[1..])
  }

  /** `PurePosixPath(text)` for text without a leading `//`: absolute when it starts
      with `/`, then the pieces between the separators. */
  function ParsePath(text: string): (p: Path)
    ensures p.absolute <==> text != [] && text[0] == '/'
  {
    Path(text != [] && text[0] == '/', Components(Split(text, '/')))
  }

  lemma {:induction false} ComponentsKeepsComponents(parts: seq<string>)
    requires forall i :: 0 <= i < |parts| ==> IsComponent(parts[i])
    ensures Components(parts) == parts
  {
    if parts != [] {
      ComponentsKeepsComponents(parts[1..]);
      assert IsComponent(parts[0]);
    }
  }

  /** The text of a well-formed path: `/` or `.` without components; otherwise it splits
      on `/` into exactly its components, after one empty piece when absolute, so they are
      joined by single separators. Parsing it gives the path back. */
  lemma PathTextRoundTrip(p: Path)
    requires WellFormed(p)
    ensures p.parts == [] ==> PathText(p) == (if p.absolute then "/" else ".")
    ensures p.parts != [] ==> Split(PathText(p), '/') == (if p.absolute then [""] else []) + p.parts
    ensures ParsePath(PathText(p)) == p
  {
    var t := PathText(p);
    if p.parts == [] {
      if p.absolute {
        assert t == "/" && t[1..] == "";
      } else {
        assert t == "." + "";
        SplitFreePrefix(".", "", '/');
      }
    } else {
      var joined := Join("/", p.parts);
      assert forall i :: 0 <= i < |p.parts| ==> '/' !in p.parts[i] by {
        forall i | 0 <= i < |p.parts| ensures '/' !in p.parts[i] {
          assert IsComponent(p.parts[i]);
        }
      }
      SplitJoin(p.parts, '/');
      ComponentsKeepsComponents(p.parts);
      assert IsComponent(p.parts[0]) && p.parts[0] <= joined;
      if p.absolute {
        assert t == ['/'] + joined;
        assert t[1..] == joined;
        assert Split(t, '/') == [""] + p.parts;
      } else {
        assert t == joined && t[0] == p.parts[0][0];
        assert [] + p.parts == p.parts;
      }
    }
  }
}
