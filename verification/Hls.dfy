/** A segmented download from its address to its file (internal/fetch/download.go, lines 375-449 and 452-473, and
    internal/fetch/m3u8.go, lines 119-134): the playlist is read, a master playlist leads on to the chosen
    rendition's, and the segments are copied in the order in which the parser found them. */
module Hls {
  import opened Basics
  import opened Fetch
  import P = Playlist
  import Paths

  /** What the servers answer: the text of a playlist, if it comes whole and is not too large, and the replies to
      requests for segments. */
  datatype Site = Site(playlist: string -> Option<string>, segment: string -> Served)

  predicate IsAbsolute(ref: string) {
    "http://" <= ref || "https://" <= ref || "file://" <= ref
  }

  predicate IsSlash(c: char) {
    c == '/'
  }

  /** A relative address replaces what follows the last slash of the base. */
  function ResolveURL(base: string, ref: string): string {
    if IsAbsolute(ref) then ref
    else
      var b := P.TrimRight(base, IsSlash);
      if Paths.Dir(b) == "" then b + "/" + ref else Paths.Dir(b) + ref
  }

  // ---------------------------------------------------------------- where a relative address lands

  lemma TrimmedNone(base: string)
    requires base == "" || base[|base| - 1] != '/'
    ensures P.TrimRight(base, IsSlash) == base
  {
  }

  /** An absolute address stays as it is. Any other is put in the place of the base's last part: `dir` is what comes
      before that, with its slash. */
  lemma ResolvedBeside(dir: string, name: string, ref: string)
    requires dir != "" && dir[|dir| - 1] == '/' && name != "" && '/' !in name
    ensures ResolveURL(dir + name, ref)
         == if "http://" <= ref || "https://" <= ref || "file://" <= ref then ref else dir + ref
  {
    TrimmedNone(dir + name);
    Paths.PathPartsAre(dir, name);
  }

  /** Slashes at the end of the base count for nothing, so a directory's own name is replaced as well. */
  lemma SlashIsDropped(base: string, ref: string)
    ensures ResolveURL(base + "/", ref) == ResolveURL(base, ref)
  {
    assert (base + "/")[..|base|] == base;
  }

  /** A base without any slash is taken for a directory. */
  lemma ResolvedBelow(base: string, ref: string)
    requires '/' !in base && !IsAbsolute(ref)
    ensures ResolveURL(base, ref) == base + "/" + ref
  {
    if base != "" {
      assert base[|base| - 1] in base;
    }
    TrimmedNone(base);
    Paths.PathPartsAre("", base);
    assert "" + base == base;
  }

  predicate OnlySlashes(path: string) {
    forall c | c in path :: c == '/'
  }

  lemma {:induction false} TrimmedPath(host: string, path: string)
    requires host != "" && host[|host| - 1] != '/'
    ensures P.TrimRight(host + path, IsSlash) == host + P.TrimRight(path, IsSlash)
    ensures P.TrimRight(path, IsSlash) == "" <==> OnlySlashes(path)
    decreases |path|
  {
    if path == "" {
      assert host + path == host;
      TrimmedNone(host);
    } else {
      var before := path[..|path| - 1];
      assert (host + path)[..|host + path| - 1] == host + before;
      assert path == before + [path[|path| - 1]];
      if path[|path| - 1] == '/' {
        TrimmedPath(host, before);
        assert forall c :: c in path <==> c in before || c == '/';
      } else {
        assert path[|path| - 1] in path;
      }
    }
  }

  lemma SamePrefixOf(p: string, a: string, b: string)
    ensures p + a <= p + b <==> a <= b
  {
    assert (p + a)[|p|..] == a && (p + b)[|p|..] == b;
    if p + a <= p + b {
      assert (p + b)[..|p + a|][|p|..] == b[..|a|];
    }
  }

  /** A base that names a host alone, with or without slashes after it, is taken for a file in the place of hosts. */
  lemma HostIsLost(scheme: string, host: string, path: string, ref: string)
    requires scheme != "" && scheme[|scheme| - 1] == '/' && host != "" && '/' !in host && !IsAbsolute(ref)
    requires OnlySlashes(path)
    ensures ResolveURL(scheme + host + path, ref) == scheme + ref
  {
    assert host[|host| - 1] in host;
    TrimmedPath(scheme + host, path);
    assert scheme + host + "" == scheme + host;
    Paths.PathPartsAre(scheme, host);
  }

  lemma HostIsKept(scheme: string, host: string, path: string, ref: string)
    requires host != "" && '/' !in host && !IsAbsolute(ref) && !OnlySlashes(path) && path[0] == '/'
    ensures scheme + host + "/" <= ResolveURL(scheme + host + path, ref)
  {
    assert host[|host| - 1] in host;
    TrimmedPath(scheme + host, path);
    TrimmedBegins(path);
    DirHasSlash(scheme + host, P.TrimRight(path, IsSlash));
  }

  /** Within a site a relative address stays on the base's host exactly if the base has a path, or the address
      happens to begin with the host's name. */
  lemma HostIsKeptIff(scheme: string, host: string, path: string, ref: string)
    requires scheme != "" && scheme[|scheme| - 1] == '/' && host != "" && '/' !in host && !IsAbsolute(ref)
    requires path == "" || path[0] == '/'
    ensures scheme + host + "/" <= ResolveURL(scheme + host + path, ref) <==> !OnlySlashes(path) || host + "/" <= ref
  {
    if OnlySlashes(path) {
      HostIsLost(scheme, host, path, ref);
      SamePrefixOf(scheme, host + "/", ref);
      assert scheme + host + "/" == scheme + (host + "/");
    } else {
      HostIsKept(scheme, host, path, ref);
    }
  }

  lemma {:induction false} TrimmedBegins(path: string)
    ensures P.TrimRight(path, IsSlash) <= path
    decreases |path|
  {
    if path != "" && path[|path| - 1] == '/' {
      TrimmedBegins(path[..|path| - 1]);
    }
  }

  /** The directory of a path that begins with a slash after the host contains the host and that slash. */
  lemma {:induction false} DirHasSlash(site: string, rest: string)
    requires rest != "" && rest[0] == '/'
    ensures site + "/" <= Paths.Dir(site + rest)
    decreases |rest|
  {
    var path := site + rest;
    if rest[|rest| - 1] != '/' {
      assert path[..|path| - 1] == site + rest[..|rest| - 1];
      DirHasSlash(site, rest[..|rest| - 1]);
    } else {
      assert path[..|site| + 1] == site + "/";
    }
  }

  /** The playlist at an address, if it can be read. */
  function Load(site: Site, url: string): Option<P.Playlist> {
    match site.playlist(url)
    case None => None
    case Some(text) =>
      match P.Parsed(P.Split(text, '\n'))
      case Ok(p) => Some(p)
      case _ => None
  }

  /** The playlist whose segments are taken, and the address they are relative to. */
  ghost predicate Leads(site: Site, url: string, base: string, play: P.Playlist) {
    Load(site, url).Some? &&
    var first := Load(site, url).value;
    if first.variants == [] then base == url && play == first
    else exists best ::
      P.IsBestOf(P.Eligible(first.variants), best) && base == ResolveURL(url, best.url)
      && Load(site, base) == Some(play)
  }

  /** There is at most one. */
  lemma LeadsOnce(site: Site, url: string, base: string, play: P.Playlist, base': string, play': P.Playlist)
    requires Leads(site, url, base, play) && Leads(site, url, base', play')
    ensures base == base' && play == play'
  {
    var first := Load(site, url).value;
    if first.variants != [] {
      var a :| P.IsBestOf(P.Eligible(first.variants), a) && base == ResolveURL(url, a.url);
      var b :| P.IsBestOf(P.Eligible(first.variants), b) && base' == ResolveURL(url, b.url);
      P.ChoiceIsUnique(P.Eligible(first.variants), a, b);
    }
  }

  method FetchPlaylist(site: Site, url: string) returns (play: Option<P.Playlist>)
    ensures play == Load(site, url)
  {
    var text := site.playlist(url);
    if text.None? {
      return None;
    }
    var r := P.ParsePlaylist(text.value);
    play := if r.Ok? then Some(r.p) else None;
  }

  /** The one or two playlists a download reads. */
  method FindMedia(site: Site, url: string) returns (base: string, play: Option<P.Playlist>)
    ensures play.Some? ==> Leads(site, url, base, play.value)
    ensures play.None? ==> forall b, p :: !Leads(site, url, b, p)
  {
    base := url;
    play := FetchPlaylist(site, url);
    if play.Some? && |play.value.variants| > 0 {
      ghost var first := play.value;
      var best := P.ChooseVariant(play.value.variants);
      base := ResolveURL(url, best.value.url);
      play := FetchPlaylist(site, base);
      if play.None? {
        forall b, p ensures !Leads(site, url, b, p) {
          OnlyThere(site, url, first, best.value, b, p);
        }
      }
    }
  }

  lemma OnlyThere(site: Site, url: string, first: P.Playlist, best: P.Variant, base: string, play: P.Playlist)
    requires Load(site, url) == Some(first) && first.variants != []
    requires P.IsBestOf(P.Eligible(first.variants), best) && Load(site, ResolveURL(url, best.url)).None?
    ensures !Leads(site, url, base, play)
  {
    forall other | P.IsBestOf(P.Eligible(first.variants), other) ensures other == best {
      P.ChoiceIsUnique(P.Eligible(first.variants), best, other);
    }
  }

  /** The replies to the requests for the segments of a playlist, in its order. */
  function Replies(site: Site, base: string, segments: seq<string>): (replies: seq<Served>)
    ensures |replies| == |segments|
    ensures forall i | 0 <= i < |segments| :: replies[i] == site.segment(ResolveURL(base, segments[i]))
  {
    seq(|segments|, i requires 0 <= i < |segments| => site.segment(ResolveURL(base, segments[i])))
  }

  /** Success if and only if the playlists lead to one with segments, all of which are served whole and fit; then
      the file is their bytes, one after the other in the order of the playlist, and so is what was hashed. */
  method DownloadHls(site: Site, url: string, out: OutFile, h: Hasher, creates: bool, closes: bool)
      returns (total: nat, err: Option<Error>, base: string, play: Option<P.Playlist>)
    modifies out, h
    ensures play.Some? ==> Leads(site, url, base, play.value)
    ensures play.None? ==> forall b, p :: !Leads(site, url, b, p)
    ensures err.None? <==>
      && play.Some? && play.value.segments != [] && creates && closes
      && var replies := Replies(site, base, play.value.segments);
         && (forall k | 0 <= k < |replies| ::
               replies[k].Served? && replies[k].status == 200 && !replies[k].body.broken)
         && |Concat(Bodies(replies))| <= old(out.room)
    ensures err.None? ==>
      && out.present && out.content == Concat(Bodies(Replies(site, base, play.value.segments)))
      && total == |out.content| && h.fed == old(h.fed) + out.content
  {
    base, play := FindMedia(site, url);
    if play.None? {
      return 0, Some(BadPlaylist), base, play;
    }
    total, err := CopySegments(out, h, Replies(site, base, play.value.segments), creates, closes);
  }

  /** A media playlist written from comments and segments leads to exactly its segments, in order. */
  lemma WrittenMediaLeads(site: Site, url: string, items: seq<P.Item>)
    requires P.AllWritable(items) && P.Renditions(items) == []
    requires forall line | line in P.LinesOf(items) :: !P.TooLong(line)
    requires site.playlist(url) == Some(P.Print(items))
    ensures Leads(site, url, url, P.Playlist(P.Segments(items) != [], P.Segments(items), []))
  {
    P.PrintedReadsBack(items);
  }

  /** A written master playlist leads on to the written playlist of its chosen rendition. */
  lemma WrittenMasterLeads(site: Site, url: string, renditions: seq<P.Item>, best: P.Variant, items: seq<P.Item>)
    requires P.AllWritable(renditions) && P.Segments(renditions) == [] && P.Renditions(renditions) != []
    requires P.AllWritable(items) && P.Renditions(items) == []
    requires forall line | line in P.LinesOf(renditions) + P.LinesOf(items) :: !P.TooLong(line)
    requires site.playlist(url) == Some(P.Print(renditions))
    requires P.IsBestOf(P.Eligible(P.Renditions(renditions)), best)
    requires site.playlist(ResolveURL(url, best.url)) == Some(P.Print(items))
    ensures Leads(site, url, ResolveURL(url, best.url),
                  P.Playlist(P.Segments(items) != [], P.Segments(items), []))
  {
    P.PrintedReadsBack(renditions);
    P.PrintedReadsBack(items);
  }
}
