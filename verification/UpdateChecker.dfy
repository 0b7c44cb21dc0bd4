/** The update checker (internal/updates/updates.go): a release in memory and a cache file that
    outlives the process. The network's answer, the clock and the fate of each file operation are
    parameters. */
module UpdateChecker {
  import opened Text
  import opened Semver

  datatype Release = Release(tag: string, url: string, publishedAt: string, checkedAt: int)

  /** The cache file: not there, not JSON, or a release. */
  datatype File = Missing | Malformed | Holds(release: Release)

  /** What the request for the latest release brings. */
  datatype Response =
    | Failed        // no answer, or a status that is not 2xx
    | Undecodable
    | Payload(tag: string, url: string, publishedAt: string, draft: bool, prerelease: bool)

  datatype Error = ReadFailed | NotJson | RequestFailed | WriteFailed

  /** The answer names a release that counts. */
  predicate Conclusive(r: Response) { r.Payload? && !r.draft && !r.prerelease && r.tag != "" }

  // ---------- the operations on values ----------

  /** The release in memory and the error, after Load. */
  function Loaded(latest: Option<Release>, version: string, cached: bool, file: File, readable: bool)
    : (Option<Release>, Option<Error>)
  {
    if !cached || file == Missing then (latest, None)
    else if !readable then (latest, Some(ReadFailed))
    else if file == Malformed then (latest, Some(NotJson))
    else if IsNewer(file.release.tag, version) then (Some(file.release), None)
    else (latest, None)
  }

  datatype Checked = Checked(latest: Option<Release>, file: File, found: Option<Release>, error: Option<Error>)

  function AfterCheck(latest: Option<Release>, version: string, cached: bool, file: File,
                      response: Response, now: int, writes: bool, removes: bool): Checked {
    if response.Failed? || response.Undecodable? then Checked(latest, file, None, Some(RequestFailed))
    else if !Conclusive(response) then Checked(latest, file, None, None)
    else if !IsNewer(response.tag, version) then Checked(None, if cached && removes then Missing else file, None, None)
    else
      var r := Release(response.tag, response.url, response.publishedAt, now);
      if !cached then Checked(Some(r), file, Some(r), None)
      else if writes then Checked(Some(r), Holds(r), Some(r), None)
      else Checked(Some(r), file, Some(r), Some(WriteFailed))
  }

  /** What Load reports: a missing file is no error, an unreadable or malformed one is; and it touches the
      release in memory only to put a newer one there. */
  lemma LoadReports(latest: Option<Release>, version: string, cached: bool, file: File, readable: bool)
    ensures var (latest', error) := Loaded(latest, version, cached, file, readable);
            && (error == None <==> !cached || file == Missing || (readable && file.Holds?))
            && (error == Some(ReadFailed) <==> cached && file != Missing && !readable)
            && (latest' != latest ==>
                  cached && readable && file.Holds? && latest' == Some(file.release)
                  && IsNewer(file.release.tag, version))
            && (cached && readable && file.Holds? && IsNewer(file.release.tag, version) ==>
                  latest' == Some(file.release))
  {
  }

  /** What Check reports. It returns a release exactly if the answer names one that is neither a draft nor a
      prerelease and is newer, and that release is then in memory. An error without a release means that there
      was no usable answer, and nothing has changed; an error with one means that only the file could not be
      written. */
  lemma CheckReports(latest: Option<Release>, version: string, cached: bool, file: File,
                     response: Response, now: int, writes: bool, removes: bool)
    ensures var c := AfterCheck(latest, version, cached, file, response, now, writes, removes);
            && (c.found.Some? <==>
                  response.Payload? && !response.draft && !response.prerelease && IsNewer(response.tag, version))
            && (c.found.Some? ==>
                  c.found == Some(Release(response.tag, response.url, response.publishedAt, now))
                  && c.latest == c.found)
            && (c.error.Some? && c.found.None? <==> !response.Payload?)
            && (c.error.Some? && c.found.Some? <==> c.found.Some? && cached && !writes)
            && (c.error.Some? ==> c.file == file)
            && (!response.Payload? || response.draft || response.prerelease || response.tag == "" ==>
                  c.latest == latest && c.file == file)
            && (response.Payload? && !response.draft && !response.prerelease && response.tag != "" ==>
                  c.latest == None || c.found.Some?)
  {
    if response.Payload? && response.tag == "" {
      EmptyTagIsNoVersion();
    }
  }

  lemma EmptyTagIsNoVersion()
    ensures Parse("") == None
  {
    var s := "";
    assert Trim(s) == s;
  }

  // ---------- the checker ----------

  /** The file at the cache path. It is written under another name and renamed: it holds the old
      content or the new. */
  class CacheFile {
    var content: File

    constructor ()
      ensures content == Missing
    {
      content := Missing;
    }
  }

  class Checker {
    const currentVersion: string
    const cache: CacheFile?  // null: no persistence
    var latest: Option<Release>

    constructor (version: string, cache: CacheFile?)
      ensures latest == None && currentVersion == version && this.cache == cache
    {
      currentVersion, this.cache, latest := version, cache, None;
    }

    function OnDisk(): File
      reads cache
    {
      if cache == null then Missing else cache.content
    }

    method Load(readable: bool) returns (error: Option<Error>)
      modifies this
      ensures (latest, error) == Loaded(old(latest), currentVersion, cache != null, OnDisk(), readable)
    {
      if cache == null {
        return None;
      }
      if cache.content == Missing {
        return None;
      }
      if !readable {
        return Some(ReadFailed);
      }
      if cache.content == Malformed {
        return Some(NotJson);
      }
      var r := cache.content.release;
      var newer := Newer(r.tag, currentVersion);
      if !newer {
        return None;
      }
      latest := Some(r);
      return None;
    }

    method Check(response: Response, now: int, writes: bool, removes: bool)
      returns (found: Option<Release>, error: Option<Error>)
      modifies this, cache
      ensures Checked(latest, OnDisk(), found, error) ==
              AfterCheck(old(latest), currentVersion, cache != null, old(OnDisk()), response, now, writes, removes)
    {
      if response.Failed? || response.Undecodable? {
        return None, Some(RequestFailed);
      }
      if response.draft || response.prerelease || response.tag == "" {
        return None, None;
      }
      var newer := Newer(response.tag, currentVersion);
      if !newer {
        Clear(removes);
        return None, None;
      }
      var r := Release(response.tag, response.url, response.publishedAt, now);
      latest := Some(r);
      error := WriteCache(r, writes);
      found := Some(r);
    }

    method Clear(removes: bool)
      modifies this, cache
      ensures latest == None
      ensures OnDisk() == if cache != null && removes then Missing else old(OnDisk())
    {
      latest := None;
      if cache != null {
        if removes {
          cache.content := Missing;
        }
      }
    }

    method WriteCache(r: Release, writes: bool) returns (error: Option<Error>)
      modifies cache
      ensures OnDisk() == if cache != null && writes then Holds(r) else old(OnDisk())
      ensures error == if cache != null && !writes then Some(WriteFailed) else None
    {
      if cache == null {
        return None;
      }
      if !writes {
        return Some(WriteFailed);
      }
      cache.content := Holds(r);
      return None;
    }
  }

  // ---------- runs over restarts ----------

  datatype State = State(version: string, latest: Option<Release>, file: File)

  /** Start is a new process, perhaps of another version, which loads the cache first. */
  datatype Event =
    | Start(version: string, readable: bool)
    | Check(response: Response, now: int, writes: bool, removes: bool)
    | Damage(file: File)  // someone else changes the file

  function Step(cached: bool, s: State, e: Event): State {
    match e
    case Start(version, readable) => State(version, Loaded(None, version, cached, s.file, readable).0, s.file)
    case Check(response, now, writes, removes) =>
      var c := AfterCheck(s.latest, s.version, cached, s.file, response, now, writes, removes);
      s.(latest := c.latest, file := c.file)
    case Damage(file) => s.(file := file)
  }

  function Run(cached: bool, s: State, events: seq<Event>): State
    decreases |events|
  {
    if events == [] then s else Run(cached, Step(cached, s, events[0]), events[1..])
  }

  predicate NeverStale(s: State) { s.latest.Some? ==> IsNewer(s.latest.value.tag, s.version) }

  lemma StepNeverStale(cached: bool, s: State, e: Event)
    requires NeverStale(s)
    ensures NeverStale(Step(cached, s, e))
  {
  }

  /** Whatever fails, and whatever becomes of the file: the banner never shows a release that is not
      newer than the version that runs. */
  lemma {:induction false} BannerIsNewer(cached: bool, s: State, events: seq<Event>)
    requires NeverStale(s)
    ensures NeverStale(Run(cached, s, events))
    decreases |events|
  {
    if events != [] {
      StepNeverStale(cached, s, events[0]);
      BannerIsNewer(cached, Step(cached, s, events[0]), events[1..]);
    }
  }

  // ---------- what the banner remembers ----------

  /** No file operation fails and nobody else touches the file. */
  predicate Undisturbed(e: Event) {
    match e
    case Start(_, readable) => readable
    case Check(_, _, writes, removes) => writes && removes
    case Damage(_) => false
  }

  function Recalled(version: string, known: Option<Release>, e: Event): Option<Release> {
    if !e.Check? || !Conclusive(e.response) then known
    else if IsNewer(e.response.tag, version) then
      Some(Release(e.response.tag, e.response.url, e.response.publishedAt, e.now))
    else None
  }

  function VersionAfter(version: string, e: Event): string { if e.Start? then e.version else version }

  /** What the last check that counts found: a release newer than the version it ran for, or nothing. */
  function Remembered(version: string, known: Option<Release>, events: seq<Event>): Option<Release>
    decreases |events|
  {
    if events == [] then known
    else Remembered(VersionAfter(version, events[0]), Recalled(version, known, events[0]), events[1..])
  }

  function LastVersion(version: string, events: seq<Event>): string
    decreases |events|
  {
    if events == [] then version
    else LastVersion(VersionAfter(version, events[0]), events[1..])
  }

  function Shown(version: string, known: Option<Release>): Option<Release> {
    if known.Some? && IsNewer(known.value.tag, version) then known else None
  }

  /** The file holds what is remembered and the banner shows it where it is newer. */
  predicate InStep(s: State, known: Option<Release>) {
    && s.file == (if known.Some? then Holds(known.value) else Missing)
    && s.latest == Shown(s.version, known)
  }

  lemma StepStaysInStep(s: State, known: Option<Release>, e: Event)
    requires InStep(s, known) && Undisturbed(e)
    ensures InStep(Step(true, s, e), Recalled(s.version, known, e))
    ensures Step(true, s, e).version == VersionAfter(s.version, e)
  {
  }

  /** With a cache file and working file operations, restarts lose nothing: after any run of checks,
      restarts, upgrades and downgrades the banner shows the finding of the last check that counts if
      it is newer than the version now running, and nothing otherwise. */
  lemma {:induction false} RestartsLoseNothing(s: State, known: Option<Release>, events: seq<Event>)
    requires InStep(s, known) && forall e :: e in events ==> Undisturbed(e)
    ensures InStep(Run(true, s, events), Remembered(s.version, known, events))
    ensures Run(true, s, events).version == LastVersion(s.version, events)
    decreases |events|
  {
    if events != [] {
      var e := events[0];
      assert e in events;
      StepStaysInStep(s, known, e);
      RestartsLoseNothing(Step(true, s, e), Recalled(s.version, known, e), events[1..]);
    }
  }

  /** A failed write is felt only by the next process: the banner stays, and after a restart it shows
      what the file still holds. */
  lemma FailedWriteForgets(s: State, response: Response, now: int, removes: bool, version: string)
    requires Conclusive(response) && IsNewer(response.tag, s.version)
    ensures var s' := Step(true, s, Check(response, now, false, removes));
            && s'.latest == Some(Release(response.tag, response.url, response.publishedAt, now))
            && Step(true, s', Start(version, true)) == Step(true, s, Start(version, true))
  {
  }
}
