/**
 * `ImageDownloader`: local file names for image URLs, the per-image decision
 * (reuse an existing file, else fetch), and the URL-to-path map assembled
 * from the individual downloads. The file system is a set of existing paths
 * and the network an oracle saying whether fetching a URL succeeds; the
 * thread pool is modelled as one download after another.
 */
module Downloader {
  import opened Wrappers
  import opened Strings
  import opened Urls

  /** The fallback name for a URL whose path has no last segment. */
  function FallbackName(url: string, hash: string -> int): (f: string)
    ensures '/' !in f && '?' !in f
  {
    var digits := IntToString(hash(url));
    assert forall i :: 0 <= i < |digits| ==> digits[i] != '/' && digits[i] != '?';
    "image_" + digits + ".png"
  }

  /**
   * `_generate_filename`: the last segment of the URL path, or
   * `image_<hash>.png` when that is empty, then cut at the first `?`.
   * `hash` is Python's (salted) string hash.
   */
  function GenerateFilename(url: string, hash: string -> int): (f: string)
    ensures '/' !in f && '?' !in f && f != []
    ensures Basename(SplitUrl(url).path) != [] ==> f == Basename(SplitUrl(url).path)
    ensures Basename(SplitUrl(url).path) == [] ==> f == FallbackName(url, hash)
  {
    var path := SplitUrl(url).path;
    var name := Basename(path);
    BasenameOmits(path, '?');
    var f := if name == [] then FallbackName(url, hash) else name;
    Before(f, '?')
  }

  /** The names of two URLs whose paths end in the same segment coincide. */
  lemma {:induction false} SameLastSegmentSameName(u: string, v: string, hash: string -> int)
    requires Basename(SplitUrl(u).path) == Basename(SplitUrl(v).path) != []
    ensures GenerateFilename(u, hash) == GenerateFilename(v, hash)
  {
  }

  /** The prefix of full length is the whole sequence. */
  lemma {:induction false} TakeAll<T>(xs: seq<T>)
    ensures xs[..|xs|] == xs
  {
  }

  /** An element other than the last is in the sequence without its last element. */
  lemma {:induction false} InInit<T>(xs: seq<T>, x: T)
    requires x in xs && x != xs[|xs| - 1]
    ensures x in xs[..|xs| - 1]
  {
    var k :| 0 <= k < |xs| && xs[k] == x;
    assert xs[..|xs| - 1][k] == x;
  }

  /** The outcome of one download: the URL and the local path, or nothing on failure. */
  datatype Outcome = Outcome(url: string, localPath: Option<string>)

  /**
   * The downloads so far: the URL-to-path map and the paths that exist on
   * disk (those that existed before plus those written since).
   */
  datatype Progress = Progress(imageMap: map<string, string>, existing: set<string>)

  class ImageDownloader {
    const outputDir: string
    const maxWorkers: int

    constructor(outputDir: string, maxWorkers: int)
      ensures this.outputDir == outputDir && this.maxWorkers == maxWorkers
    {
      this.outputDir := outputDir;
      this.maxWorkers := maxWorkers;
    }

    /** `os.path.join(output_dir, filename)`. */
    function LocalPath(url: string, hash: string -> int): (p: string)
      ensures EndsWith(p, GenerateFilename(url, hash))
    {
      JoinPath(outputDir, GenerateFilename(url, hash))
    }

    /**
     * The local path is the name under the output directory, with one `/`
     * added unless the directory is empty or already ends in one; the name
     * never starts with `/`, so it never replaces the directory.
     */
    lemma {:induction false} LocalPathUnderOutputDir(url: string, hash: string -> int)
      ensures outputDir != [] && !EndsWith(outputDir, "/") ==> LocalPath(url, hash) == outputDir + "/" + GenerateFilename(url, hash)
      ensures outputDir == [] || EndsWith(outputDir, "/") ==> LocalPath(url, hash) == outputDir + GenerateFilename(url, hash)
    {
      NoLeadingChar(GenerateFilename(url, hash), '/');
    }

    /**
     * `_download_single`: an existing file at the local path is reused
     * without fetching; otherwise the outcome is whether fetching succeeds.
     */
    function DownloadSingle(url: string, hash: string -> int, existing: set<string>, fetchOk: string -> bool)
      : (r: Outcome)
      ensures r.url == url
      ensures r.localPath.Some? <==> LocalPath(url, hash) in existing || fetchOk(url)
      ensures r.localPath.Some? ==> r.localPath.value == LocalPath(url, hash)
    {
      var path := LocalPath(url, hash);
      if path in existing then Outcome(url, Some(path))
      else if fetchOk(url) then Outcome(url, Some(path))
      else Outcome(url, None)
    }

    /** An existing file is reused without fetching: the network's answer does not matter. */
    lemma {:induction false} ExistingFileNotFetched(url: string, hash: string -> int, existing: set<string>,
                                 fetchOk: string -> bool, fetchOk': string -> bool)
      requires LocalPath(url, hash) in existing
      ensures DownloadSingle(url, hash, existing, fetchOk) == DownloadSingle(url, hash, existing, fetchOk')
      ensures DownloadSingle(url, hash, existing, fetchOk).localPath == Some(LocalPath(url, hash))
    {
    }

    /** One completed download folded into the progress. */
    function Record(p: Progress, url: string, hash: string -> int, fetchOk: string -> bool): (q: Progress)
      ensures p.existing <= q.existing
      ensures p.imageMap.Keys <= q.imageMap.Keys <= p.imageMap.Keys + {url}
      ensures forall u :: u in p.imageMap && u != url ==> q.imageMap[u] == p.imageMap[u]
    {
      var outcome := DownloadSingle(url, hash, p.existing, fetchOk);
      match outcome.localPath
      case Some(path) => Progress(p.imageMap[url := path], p.existing + {path})
      case None => p
    }

    /** The progress after downloading `urls` one after another. */
    function Assemble(urls: seq<string>, hash: string -> int, existing: set<string>, fetchOk: string -> bool)
      : Progress
    {
      if urls == [] then Progress(map[], existing)
      else Record(Assemble(urls[..|urls| - 1], hash, existing, fetchOk), urls[|urls| - 1], hash, fetchOk)
    }

    /**
     * Every key of the assembled map is one of the URLs, mapped to its local
     * path, and the files that existed before still exist.
     */
    lemma {:induction false} AssembleSound(urls: seq<string>, hash: string -> int, existing: set<string>,
                                           fetchOk: string -> bool)
      ensures var p := Assemble(urls, hash, existing, fetchOk);
        && existing <= p.existing
        && (forall u :: u in p.imageMap ==> u in urls && p.imageMap[u] == LocalPath(u, hash))
      decreases |urls|
    {
      if urls != [] {
        var init := urls[..|urls| - 1];
        AssembleSound(init, hash, existing, fetchOk);
        var p := Assemble(urls, hash, existing, fetchOk);
        forall u | u in p.imageMap ensures u in urls && p.imageMap[u] == LocalPath(u, hash) {
          if u != urls[|urls| - 1] {
            assert u in init;
          }
        }
      }
    }

    /**
     * A URL whose file already existed, or whose fetch succeeds, is in the
     * map whatever happens to the other downloads.
     */
    lemma {:induction false} SucceededUrlIncluded(urls: seq<string>, hash: string -> int, existing: set<string>,
                                                  fetchOk: string -> bool, u: string)
      requires u in urls && (LocalPath(u, hash) in existing || fetchOk(u))
      ensures u in Assemble(urls, hash, existing, fetchOk).imageMap
      decreases |urls|
    {
      var init := urls[..|urls| - 1];
      var last := urls[|urls| - 1];
      var p := Assemble(init, hash, existing, fetchOk);
      assert Assemble(urls, hash, existing, fetchOk) == Record(p, last, hash, fetchOk);
      if u == last {
        AssembleKeepsExisting(init, hash, existing, fetchOk);
        RecordAdds(p, last, hash, fetchOk);
      } else {
        InInit(urls, u);
        SucceededUrlIncluded(init, hash, existing, fetchOk, u);
      }
    }

    /** Files on disk stay on disk. */
    lemma {:induction false} AssembleKeepsExisting(urls: seq<string>, hash: string -> int, existing: set<string>,
                                                   fetchOk: string -> bool)
      ensures existing <= Assemble(urls, hash, existing, fetchOk).existing
      decreases |urls|
    {
      if urls != [] {
        AssembleKeepsExisting(urls[..|urls| - 1], hash, existing, fetchOk);
      }
    }

    /** A download whose file exists or whose fetch succeeds enters the map. */
    lemma {:induction false} RecordAdds(p: Progress, url: string, hash: string -> int, fetchOk: string -> bool)
      requires LocalPath(url, hash) in p.existing || fetchOk(url)
      ensures url in Record(p, url, hash, fetchOk).imageMap
    {
      assert DownloadSingle(url, hash, p.existing, fetchOk).localPath.Some?;
    }

    /**
     * A URL whose fetch fails and whose file never appears on disk has no
     * entry in the map.
     */
    lemma {:induction false} FailedUrlOmitted(urls: seq<string>, hash: string -> int, existing: set<string>,
                                              fetchOk: string -> bool, u: string)
      requires !fetchOk(u)
      requires LocalPath(u, hash) !in Assemble(urls, hash, existing, fetchOk).existing
      ensures u !in Assemble(urls, hash, existing, fetchOk).imageMap
      decreases |urls|
    {
      if urls != [] {
        var init := urls[..|urls| - 1];
        var last := urls[|urls| - 1];
        var p := Assemble(init, hash, existing, fetchOk);
        assert Assemble(urls, hash, existing, fetchOk) == Record(p, last, hash, fetchOk);
        FailedUrlOmitted(init, hash, existing, fetchOk, u);
        RecordOmits(p, last, hash, fetchOk, u);
      }
    }

    /**
     * A download adds no entry for a URL that had none, unless it is that
     * URL's own download and its file exists or its fetch succeeds.
     */
    lemma {:induction false} RecordOmits(p: Progress, url: string, hash: string -> int, fetchOk: string -> bool, u: string)
      requires u !in p.imageMap
      requires url == u ==> LocalPath(u, hash) !in p.existing && !fetchOk(u)
      ensures u !in Record(p, url, hash, fetchOk).imageMap
    {
      if url == u {
        assert DownloadSingle(url, hash, p.existing, fetchOk).localPath.None?;
      }
    }

    lemma {:induction false} AssembleStep(urls: seq<string>, i: nat, hash: string -> int, existing: set<string>, fetchOk: string -> bool)
      requires i < |urls|
      ensures Assemble(urls[..i + 1], hash, existing, fetchOk)
        == Record(Assemble(urls[..i], hash, existing, fetchOk), urls[i], hash, fetchOk)
    {
      assert urls[..i + 1][..i] == urls[..i];
    }

    /** Before any download the map is empty and the disk is as it was. */
    lemma {:induction false} AssembleNone(urls: seq<string>, hash: string -> int, existing: set<string>, fetchOk: string -> bool)
      ensures Assemble(urls[..0], hash, existing, fetchOk) == Progress(map[], existing)
    {
      assert urls[..0] == [];
    }

    /**
     * One more download, applied to the progress over the first `i` URLs,
     * gives the progress over `i + 1`.
     */
    lemma {:induction false} DownloadStep(urls: seq<string>, i: nat, hash: string -> int, existing: set<string>,
                                          fetchOk: string -> bool, before: Progress, outcome: Outcome, after: Progress)
      requires i < |urls|
      requires before == Assemble(urls[..i], hash, existing, fetchOk)
      requires outcome == DownloadSingle(urls[i], hash, before.existing, fetchOk)
      requires after == match outcome.localPath
        case Some(path) => Progress(before.imageMap[urls[i] := path], before.existing + {path})
        case None => before
      ensures after == Assemble(urls[..i + 1], hash, existing, fetchOk)
    {
      AssembleStep(urls, i, hash, existing, fetchOk);
    }

    /**
     * `download_images`: no URLs means an empty map and no directory is
     * created; otherwise the output directory is created and the downloads
     * are folded into the map one after another.
     */
    method DownloadImages(urls: seq<string>, hash: string -> int, existing: set<string>, fetchOk: string -> bool)
      returns (imageMap: map<string, string>, madeDir: bool)
      ensures urls == [] ==> imageMap == map[] && !madeDir
      ensures madeDir <==> urls != []
      ensures imageMap == Assemble(urls, hash, existing, fetchOk).imageMap
    {
      if urls == [] {
        return map[], false;
      }
      madeDir := true;
      var present := existing;
      imageMap := map[];
      var i := 0;
      AssembleNone(urls, hash, existing, fetchOk);
      while i < |urls|
        invariant 0 <= i <= |urls|
        invariant Progress(imageMap, present) == Assemble(urls[..i], hash, existing, fetchOk)
      {
        ghost var before := Progress(imageMap, present);
        var outcome := DownloadSingle(urls[i], hash, present, fetchOk);
        match outcome.localPath {
          case Some(path) =>
            imageMap := imageMap[urls[i] := path];
            present := present + {path};
          case None =>
        }
        DownloadStep(urls, i, hash, existing, fetchOk, before, outcome, Progress(imageMap, present));
        i := i + 1;
      }
      TakeAll(urls);
    }
  }
}
