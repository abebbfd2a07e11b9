/** The two halves of a path, and the name of the metadata file beside a target (internal/scrub/scrub.go, lines
    49-62). Paths are clean, as joining them leaves them. */
module Paths {

  const SIDECAR: string := ".hermit.json"

  /** Everything up to and including the last slash. */
  function Dir(path: string): (dir: string)
    ensures dir <= path
  {
    if path == "" then ""
    else if path[|path| - 1] == '/' then path
    else Dir(path[..|path| - 1])
  }

  function Base(path: string): string {
    path[|Dir(path)|..]
  }

  /** The sidecar of a file: a fixed name in the file's own directory. */
  function SidecarOf(path: string): string {
    Dir(path) + SIDECAR
  }

  lemma {:induction false} DirTwice(path: string)
    ensures Dir(Dir(path)) == Dir(path)
  {
    if path != "" && path[|path| - 1] != '/' {
      DirTwice(path[..|path| - 1]);
    }
  }

  lemma {:induction false} DirOfName(dir: string, name: string)
    requires Dir(dir) == dir && '/' !in name
    ensures Dir(dir + name) == dir
  {
    if name == "" {
      assert dir + name == dir;
    } else {
      var path := dir + name;
      assert path[..|path| - 1] == dir + name[..|name| - 1];
      assert path[|path| - 1] == name[|name| - 1];
      DirOfName(dir, name[..|name| - 1]);
    }
  }

  /** A path is the directory, which is empty or ends with a slash, and a name without a slash. */
  lemma {:induction false} PathParts(path: string)
    ensures path == Dir(path) + Base(path) && '/' !in Base(path)
    ensures Dir(path) == "" || Dir(path)[|Dir(path)| - 1] == '/'
  {
    if path != "" && path[|path| - 1] != '/' {
      PathParts(path[..|path| - 1]);
      assert Base(path) == Base(path[..|path| - 1]) + [path[|path| - 1]];
    }
  }

  /** There is only one way to take a path apart like that. */
  lemma PathPartsAre(dir: string, name: string)
    requires (dir == "" || dir[|dir| - 1] == '/') && '/' !in name
    ensures Dir(dir + name) == dir && Base(dir + name) == name
  {
    DirOfName(dir, name);
  }

  /** A file is some file's sidecar exactly if it has the sidecar's name, and then it is its own. */
  lemma SidecarIff(path: string)
    ensures path == SidecarOf(path) <==> Base(path) == ".hermit.json"
    ensures forall other | path == SidecarOf(other) :: Base(path) == ".hermit.json"
  {
    assert path == Dir(path) + Base(path);
    assert '/' !in SIDECAR;
    forall other | path == SidecarOf(other) ensures Base(path) == SIDECAR {
      DirTwice(other);
      DirOfName(Dir(other), SIDECAR);
    }
  }
}
