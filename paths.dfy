/**
 * `NotYumBase.__fix_paths`: the configured (or overriding) `reposdir`
 * entries, each once, with relative entries made absolute.
 */
module Paths {
  import opened Wrappers
  import opened Seqs

  /** `os.path.isabs` on POSIX. */
  predicate IsAbs(p: string)
    ensures IsAbs(p) <==> "/" <= p
  {
    |p| > 0 && p[0] == '/'
  }

  /** `os.path.join(a, b)` on POSIX. */
  function Join(a: string, b: string): (r: string)
    ensures IsAbs(b) ==> r == b
    ensures IsAbs(a) ==> IsAbs(r)
    ensures !IsAbs(b) ==> |a| <= |r| && r[..|a|] == a
  {
    if IsAbs(b) then b
    else if a == "" || a[|a| - 1] == '/' then a + b
    else a + "/" + b
  }

  /** `p.rfind('/') + 1`: the length of `p` up to and including its last slash. */
  function AfterLastSlash(p: string): (i: nat)
    ensures i <= |p|
    ensures i > 0 ==> p[i - 1] == '/'
    ensures forall k :: i <= k < |p| ==> p[k] != '/'
  {
    if p == "" then 0
    else if p[|p| - 1] == '/' then |p|
    else AfterLastSlash(p[..|p| - 1])
  }

  /** `s.rstrip('/')`. */
  function RStripSlashes(s: string): (r: string)
    ensures |r| <= |s| && r == s[..|r|]
    ensures forall k :: |r| <= k < |s| ==> s[k] == '/'
    ensures r != "" ==> r[|r| - 1] != '/'
  {
    if s != "" && s[|s| - 1] == '/' then RStripSlashes(s[..|s| - 1]) else s
  }

  predicate AllSlashes(s: string)
  {
    forall k :: 0 <= k < |s| ==> s[k] == '/'
  }

  /** `os.path.dirname` on POSIX: the head of the path, trailing slashes removed unless it is all slashes. */
  function Dirname(p: string): (d: string)
    ensures IsAbs(p) ==> IsAbs(d)
  {
    var head := p[..AfterLastSlash(p)];
    if head != "" && !AllSlashes(head) then
      var d := RStripSlashes(head);
      assert d != "" && d[0] == head[0] by {
        var k :| 0 <= k < |head| && head[k] != '/';
        assert k < |d|;
      }
      d
    else head
  }

  /**
   * What the filesystem answers: `os.path.realpath` and `os.getcwd()`.
   * Both depend on the machine the checker runs on, so the model takes
   * them as given.
   */
  datatype Os = Os(realpath: string -> string, cwd: string)

  /** `realpath` always answers with an absolute path, as it does on POSIX. */
  ghost predicate RealpathAbsolute(os: Os)
  {
    forall p :: IsAbs(os.realpath(p))
  }

  /**
   * The directory relative entries are resolved against: the directory of
   * the configuration file when the configured `reposdir` is used, the
   * current directory when an override is given.
   */
  function BaseDir(reposdir: Option<seq<string>>, configFilePath: string, os: Os): (base: string)
    ensures reposdir.Some? ==> base == os.cwd
    ensures reposdir.None? && RealpathAbsolute(os) ==> IsAbs(base)
  {
    if reposdir.None? then Dirname(os.realpath(configFilePath)) else os.cwd
  }

  /**
   * One entry after fixing: unchanged when absolute, else
   * `realpath(join(base, item))`, so absolute whenever `realpath` is.
   */
  function FixPath(item: string, base: string, os: Os): (fixed: string)
    ensures IsAbs(item) ==> fixed == item
    ensures RealpathAbsolute(os) ==> IsAbs(fixed)
  {
    if IsAbs(item) then item else os.realpath(Join(base, item))
  }

  /** Every entry fixed, in order: absolute entries unchanged, and all absolute with a POSIX `realpath`. */
  function FixAll(items: seq<string>, base: string, os: Os): (r: seq<string>)
    ensures |r| == |items|
    ensures forall i :: 0 <= i < |items| && IsAbs(items[i]) ==> r[i] == items[i]
    ensures RealpathAbsolute(os) ==> forall i :: 0 <= i < |r| ==> IsAbs(r[i])
  {
    seq(|items|, i requires 0 <= i < |items| => FixPath(items[i], base, os))
  }

  lemma FixAllSnoc(items: seq<string>, item: string, base: string, os: Os)
    ensures FixAll(items + [item], base, os) == FixAll(items, base, os) + [FixPath(item, base, os)]
  {
  }

  /**
   * A relative entry is resolved inside the base directory: what `realpath`
   * is given starts with the base, so it is absolute whenever the base is.
   */
  lemma RelativeResolvedAgainstBase(item: string, base: string, os: Os)
    requires !IsAbs(item)
    ensures FixPath(item, base, os) == os.realpath(Join(base, item))
    ensures Join(base, item)[..|base|] == base
    ensures IsAbs(base) ==> IsAbs(Join(base, item))
  {
  }

  /** Moving one entry from the unvisited set to the end of the visiting order. */
  lemma VisitStep(visited: seq<string>, remaining: set<string>, all: set<string>, entry: string)
    requires NoDups(visited) && Elems(visited) + remaining == all && Elems(visited) !! remaining
    requires entry in remaining
    ensures NoDups(visited + [entry])
    ensures Elems(visited + [entry]) + (remaining - {entry}) == all
    ensures Elems(visited + [entry]) !! remaining - {entry}
  {
  }

  /** The parts of yum's configuration that `__fix_paths` reads and rewrites. */
  class YumConf {
    const configFilePath: string
    var reposdir: seq<string>

    constructor (configFilePath: string, reposdir: seq<string>)
      ensures this.configFilePath == configFilePath && this.reposdir == reposdir
    {
      this.configFilePath := configFilePath;
      this.reposdir := reposdir;
    }
  }

  /** The checker's `YumBase`, reduced to its configuration. */
  class NotYumBase {
    const conf: YumConf

    constructor (conf: YumConf)
      ensures this.conf == conf
    {
      this.conf := conf;
    }

    /**
     * `__fix_paths(reposdir)`: rebuilds `conf.reposdir` from the distinct
     * entries of the override (or, without one, of the configured value),
     * in the order a set yields them, which `visited` records. Absolute
     * entries are kept; relative ones are joined onto `BaseDir` and resolved.
     */
    method FixPaths(reposdir: Option<seq<string>>, os: Os) returns (ghost visited: seq<string>)
      modifies conf
      ensures var source := if reposdir.Some? then reposdir.value else old(conf.reposdir);
              NoDups(visited) && Elems(visited) == Elems(source) &&
              |conf.reposdir| == |Elems(source)|
      ensures conf.reposdir == FixAll(visited, BaseDir(reposdir, conf.configFilePath, os), os)
      ensures forall i :: 0 <= i < |visited| && IsAbs(visited[i]) ==> conf.reposdir[i] == visited[i]
      ensures RealpathAbsolute(os) ==> forall i :: 0 <= i < |conf.reposdir| ==> IsAbs(conf.reposdir[i])
    {
      var confPwd := Dirname(os.realpath(conf.configFilePath));
      var source, base;
      if reposdir.None? {
        source, base := conf.reposdir, confPwd;
      } else {
        source, base := reposdir.value, os.cwd;
      }

      conf.reposdir := [];
      visited := [];
      var remaining := Elems(source);
      while remaining != {}
        invariant NoDups(visited)
        invariant Elems(visited) + remaining == Elems(source) && Elems(visited) !! remaining
        invariant conf.reposdir == FixAll(visited, base, os)
        decreases remaining
      {
        var entry :| entry in remaining;
        var item := entry;
        if !IsAbs(item) {
          item := os.realpath(Join(base, item));
        }
        FixAllSnoc(visited, entry, base, os);
        conf.reposdir := conf.reposdir + [item];
        VisitStep(visited, remaining, Elems(source), entry);
        visited := visited + [entry];
        remaining := remaining - {entry};
      }
      NoDupsCard(visited);
    }
  }
}
