/**
 * `main_loop`'s list of conversions: every command-line path is searched for
 * archives, each archive is unpacked by `unzip_serial` unless its directory
 * already exists, and the `.flac` files under each new directory are collected.
 * The paths that exist are a set threaded through the loop, so an archive
 * reached twice in one run is unpacked, and its files collected, once.
 */
module MainLoop {
  import opened Wrappers
  import opened Text
  import opened Paths

  /**
   * What the run reads from the world: where archives are unpacked, whether the
   * command-line paths are walked recursively, what a walk of a directory yields
   * (`os.walk` when the flag is set, else `os.listdir`), and which non-ASCII
   * characters are word, space or digit characters.
   */
  datatype Env = Env(destRoot: Path, descend: bool, listing: (Path, bool) -> seq<Path>,
                     inUnicodeClass: char -> bool)

  /** The sources collected and the paths that exist afterwards, or the AssertionError that ends the run. */
  type Collected = Result<(seq<Path>, set<Path>), DestError>

  /**
   * The directory `unzip_serial` would unpack an archive into: the destination root
   * joined with the name `generate_dest_dir_name` gives, or None when it gives none.
   */
  function Dest(zip: Path, env: Env): Option<Path>
  {
    match DestDirName(zip, env.inUnicodeClass)
    case Ok(Some(name)) => if name == [] then None else Some(JoinPath(env.destRoot, name))
    case _ => None
  }

  /**
   * `unzip_serial`: the directory an archive is unpacked into, or None when its name
   * gives no directory or that directory already exists; and the paths that exist
   * afterwards. A name whose extension is not `.zip` raises.
   */
  function Unzip(zip: Path, env: Env, existing: set<Path>): (r: Result<(Option<Path>, set<Path>), DestError>)
    ensures r.Err? <==> DestDirName(zip, env.inUnicodeClass).Err?
    ensures r.Ok? ==>
      (r.value.0.Some? <==>
        && DestDirName(zip, env.inUnicodeClass).value.Some?
        && DestDirName(zip, env.inUnicodeClass).value.value != []
        && JoinPath(env.destRoot, DestDirName(zip, env.inUnicodeClass).value.value) !in existing)
    ensures r.Ok? && r.value.0.Some? ==>
      r.value.0.value == JoinPath(env.destRoot, DestDirName(zip, env.inUnicodeClass).value.value)
    ensures r.Ok? && r.value.0.None? ==> r.value.1 == existing
    ensures r.Ok? && r.value.0.Some? ==>
      r.value.0.value !in existing && r.value.1 == existing + {r.value.0.value}
  {
    match DestDirName(zip, env.inUnicodeClass)
    case Err(e) => Err(e)
    case Ok(name) =>
      if name.None? || name.value == [] then Ok((None, existing))
      else
        var dest := JoinPath(env.destRoot, name.value);
        if dest in existing then Ok((None, existing)) else Ok((Some(dest), existing + {dest}))
  }

  /** An archive whose directory exists, or whose name gives none, is passed over without change. */
  predicate Settled(zip: Path, env: Env, existing: set<Path>)
  {
    Unzip(zip, env, existing) == Ok((None, existing))
  }

  /** An archive is unpacked at most once: after `unzip_serial` has seen it, it is settled. */
  lemma UnzipOnce(zip: Path, env: Env, existing: set<Path>)
    requires Unzip(zip, env, existing).Ok?
    ensures Settled(zip, env, Unzip(zip, env, existing).value.1)
  {
  }

  /** Creating more directories never unsettles an archive. */
  lemma SettledGrows(zip: Path, env: Env, existing: set<Path>, more: set<Path>)
    requires Settled(zip, env, existing) && existing <= more
    ensures Settled(zip, env, more)
  {
  }

  /** Adds the sources collected before a step to what the step collects. */
  function Extend(found: seq<Path>, c: Collected): (r: Collected)
  {
    match c
    case Err(e) => Err(e)
    case Ok((more, existing)) => Ok((found + more, existing))
  }

  /** `get_all_matching(dir, '.flac')`: the sources under a directory, walked recursively. */
  function Files(dir: Path, env: Env): seq<Path>
  {
    GetAllMatching(dir, ".flac", env.listing(dir, true))
  }

  /** The sources of one archive: none when it was not unpacked, else the `.flac` files under its directory. */
  function UnpackedJobs(zip: Path, env: Env, existing: set<Path>): Collected
  {
    match Unzip(zip, env, existing)
    case Err(e) => Err(e)
    case Ok((dir, now)) =>
      if dir.None? then Ok(([], now))
      else Ok((Files(dir.value, env), now))
  }

  /**
   * Every case of one archive: its name raises; its destination is new, and it adds
   * that directory and the sources under it; or it adds nothing.
   */
  lemma UnpackedJobsCases(zip: Path, env: Env, existing: set<Path>)
    ensures DestDirName(zip, env.inUnicodeClass).Err? ==> UnpackedJobs(zip, env, existing).Err?
    ensures Dest(zip, env).Some? && Dest(zip, env).value !in existing ==>
      UnpackedJobs(zip, env, existing) == Ok((Files(Dest(zip, env).value, env), existing + {Dest(zip, env).value}))
    ensures DestDirName(zip, env.inUnicodeClass).Ok? && (Dest(zip, env).None? || Dest(zip, env).value in existing) ==>
      UnpackedJobs(zip, env, existing) == Ok(([], existing))
  {
    var u := Unzip(zip, env, existing);
    if u.Ok? {
      var name := DestDirName(zip, env.inUnicodeClass).value;
      if name.Some? && name.value != [] {
        assert Dest(zip, env) == Some(JoinPath(env.destRoot, name.value));
      } else {
        assert Dest(zip, env).None?;
      }
    }
  }

  /** What has been collected, then one more archive, unless an error came first. */
  function ThenArchive(c: Collected, zip: Path, env: Env): Collected
  {
    match c
    case Err(e) => Err(e)
    case Ok((found, now)) => Extend(found, UnpackedJobs(zip, env, now))
  }

  /** The sources a list of archives contributes, archive by archive, stopping at the first that raises. */
  function ArchiveJobs(zips: seq<Path>, env: Env, existing: set<Path>): Collected
    decreases |zips|
  {
    if zips == [] then Ok(([], existing))
    else ThenArchive(ArchiveJobs(zips[..|zips| - 1], env, existing), zips[|zips| - 1], env)
  }

  /** The archives `get_all_matching` finds under one command-line path. */
  function ZipsUnder(path: Path, env: Env): seq<Path>
  {
    GetAllMatching(path, ".zip", env.listing(path, env.descend))
  }

  /** The sources the archives under one command-line path contribute. */
  function PathJobs(path: Path, env: Env, existing: set<Path>): Collected
  {
    ArchiveJobs(ZipsUnder(path, env), env, existing)
  }

  /** What has been collected, then one more command-line path, unless an error came first. */
  function ThenPath(c: Collected, path: Path, env: Env): Collected
  {
    match c
    case Err(e) => Err(e)
    case Ok((found, now)) => Extend(found, PathJobs(path, env, now))
  }

  /** The sources for all the command-line paths, in their order, stopping at the first error. */
  function Jobs(paths: seq<Path>, env: Env, existing: set<Path>): Collected
    decreases |paths|
  {
    if paths == [] then Ok(([], existing))
    else ThenPath(Jobs(paths[..|paths| - 1], env, existing), paths[|paths| - 1], env)
  }

  // ---------------------------------------------------------------------------
  // The loops

  /** Appends the items one at a time, as the loop body of `main_loop` does. */
  method AppendEach(jobs: seq<Path>, items: seq<Path>) returns (r: seq<Path>)
    ensures r == jobs + items
  {
    r := jobs;
    for m := 0 to |items|
      invariant r == jobs + items[..m]
    {
      r := r + [items[m]];
    }
    assert items[..|items|] == items;
  }

  /** Unpacks one archive and appends the `.flac` files under its directory, if it was unpacked. */
  method AppendArchive(jobs: seq<Path>, zip: Path, env: Env, existing: set<Path>) returns (r: Collected)
    ensures r == Extend(jobs, UnpackedJobs(zip, env, existing))
  {
    var unpacked := Unzip(zip, env, existing);
    if unpacked.Err? {
      return Err(unpacked.error);
    }
    var dirname := unpacked.value.0;
    if dirname.Some? {
      var flacs := GetAllMatching(dirname.value, ".flac", env.listing(dirname.value, true));
      assert flacs == Files(dirname.value, env);
      var appended := AppendEach(jobs, flacs);
      r := Ok((appended, unpacked.value.1));
    } else {
      r := Ok((jobs, unpacked.value.1));
      assert jobs + [] == jobs;
    }
  }

  /** The archives up to and including the `k`th contribute what those before it do, then its own. */
  lemma ArchiveJobsStep(zips: seq<Path>, k: nat, env: Env, existing: set<Path>)
    requires k < |zips| && ArchiveJobs(zips[..k], env, existing).Ok?
    ensures var (found, now) := ArchiveJobs(zips[..k], env, existing).value;
      ArchiveJobs(zips[..k + 1], env, existing) == Extend(found, UnpackedJobs(zips[k], env, now))
  {
    assert zips[..k + 1][..k] == zips[..k];
  }

  /** Once an archive raises, the archives after it are never reached. */
  lemma {:induction false} ArchiveJobsStopsAtError(zips: seq<Path>, k: nat, env: Env, existing: set<Path>)
    requires k <= |zips| && ArchiveJobs(zips[..k], env, existing).Err?
    ensures ArchiveJobs(zips, env, existing) == ArchiveJobs(zips[..k], env, existing)
    decreases |zips|
  {
    if k == |zips| {
      assert zips[..k] == zips;
    } else {
      var init := zips[..|zips| - 1];
      assert init[..k] == zips[..k];
      ArchiveJobsStopsAtError(init, k, env, existing);
    }
  }

  /** For each archive in turn: unpack it and collect what it contributes. */
  method CollectArchives(zips: seq<Path>, env: Env, existing: set<Path>) returns (r: Collected)
    ensures r == ArchiveJobs(zips, env, existing)
  {
    var found: seq<Path> := [];
    var now := existing;
    for k := 0 to |zips|
      invariant ArchiveJobs(zips[..k], env, existing) == Ok((found, now))
    {
      ArchiveJobsStep(zips, k, env, existing);
      var step := AppendArchive(found, zips[k], env, now);
      if step.Err? {
        ArchiveJobsStopsAtError(zips, k + 1, env, existing);
        return step;
      }
      found, now := step.value.0, step.value.1;
    }
    assert zips[..|zips|] == zips;
    r := Ok((found, now));
  }

  /** The paths up to and including the `i`th contribute what those before it do, then its own. */
  lemma JobsStep(paths: seq<Path>, i: nat, env: Env, existing: set<Path>)
    requires i < |paths| && Jobs(paths[..i], env, existing).Ok?
    ensures var (found, now) := Jobs(paths[..i], env, existing).value;
      Jobs(paths[..i + 1], env, existing) == Extend(found, PathJobs(paths[i], env, now))
  {
    assert paths[..i + 1][..i] == paths[..i];
  }

  /** Once a path's archives raise, the paths after it are never reached. */
  lemma {:induction false} JobsStopsAtError(paths: seq<Path>, i: nat, env: Env, existing: set<Path>)
    requires i <= |paths| && Jobs(paths[..i], env, existing).Err?
    ensures Jobs(paths, env, existing) == Jobs(paths[..i], env, existing)
    decreases |paths|
  {
    if i == |paths| {
      assert paths[..i] == paths;
    } else {
      var init := paths[..|paths| - 1];
      assert init[..i] == paths[..i];
      JobsStopsAtError(init, i, env, existing);
    }
  }

  /**
   * `main_loop`'s collection of conversions: for each path, each archive found
   * under it, unpacked unless its directory exists, and each `.flac` file under
   * the new directory. An AssertionError from a badly named archive ends the loop.
   */
  method CollectJobs(paths: seq<Path>, env: Env, existing: set<Path>) returns (r: Collected)
    ensures r == Jobs(paths, env, existing)
  {
    var jobs: seq<Path> := [];
    var now := existing;
    for i := 0 to |paths|
      invariant Jobs(paths[..i], env, existing) == Ok((jobs, now))
    {
      JobsStep(paths, i, env, existing);
      var zips := GetAllMatching(paths[i], ".zip", env.listing(paths[i], env.descend));
      var found := CollectArchives(zips, env, now);
      if found.Err? {
        JobsStopsAtError(paths, i + 1, env, existing);
        return Err(found.error);
      }
      jobs := AppendEach(jobs, found.value.0);
      now := found.value.1;
    }
    assert paths[..|paths|] == paths;
    r := Ok((jobs, now));
  }

  // ---------------------------------------------------------------------------
  // What the collected list holds

  /** Everything collected from the archives passes the `.flac` filter. */
  lemma {:induction false} ArchiveJobsAreFlac(zips: seq<Path>, env: Env, existing: set<Path>)
    requires ArchiveJobs(zips, env, existing).Ok?
    ensures forall j :: j in ArchiveJobs(zips, env, existing).value.0 ==> EndsWithFold(j, ".flac")
    decreases |zips|
  {
    if zips != [] {
      var last := zips[|zips| - 1];
      ArchiveJobsAreFlac(zips[..|zips| - 1], env, existing);
      var now := ArchiveJobs(zips[..|zips| - 1], env, existing).value.1;
      match Unzip(last, env, now)
      case Err(_) =>
      case Ok((dir, _)) =>
        if dir.Some? {
          GetAllMatchingYields(dir.value, ".flac", env.listing(dir.value, true));
        }
    }
  }

  /** Every collected source is a `.flac` file, so no conversion writes over its own source. */
  lemma {:induction false} JobsAreFlac(paths: seq<Path>, env: Env, existing: set<Path>)
    requires Jobs(paths, env, existing).Ok?
    ensures forall j :: j in Jobs(paths, env, existing).value.0 ==>
      EndsWithFold(j, ".flac") && Mp3Path(j) != j
    decreases |paths|
  {
    if paths != [] {
      var last := paths[|paths| - 1];
      JobsAreFlac(paths[..|paths| - 1], env, existing);
      var now := Jobs(paths[..|paths| - 1], env, existing).value.1;
      ArchiveJobsAreFlac(ZipsUnder(last, env), env, now);
      forall j | j in Jobs(paths, env, existing).value.0 ensures Mp3Path(j) != j {
        Mp3PathDiffers(j);
      }
    }
  }

  // ---------------------------------------------------------------------------
  // The existence check across the whole run

  /**
   * After a list of archives has been processed, every one of them is settled, and
   * the paths that existed before still exist.
   */
  lemma {:induction false} ArchiveJobsSettle(zips: seq<Path>, env: Env, existing: set<Path>)
    requires ArchiveJobs(zips, env, existing).Ok?
    ensures existing <= ArchiveJobs(zips, env, existing).value.1
    ensures forall z :: z in zips ==> Settled(z, env, ArchiveJobs(zips, env, existing).value.1)
    decreases |zips|
  {
    if zips != [] {
      var init := zips[..|zips| - 1];
      var last := zips[|zips| - 1];
      ArchiveJobsSettle(init, env, existing);
      var now := ArchiveJobs(init, env, existing).value.1;
      var after := ArchiveJobs(zips, env, existing).value.1;
      assert Unzip(last, env, now).Ok?;
      assert after == Unzip(last, env, now).value.1;
      UnzipOnce(last, env, now);
      forall z | z in zips ensures Settled(z, env, after) {
        if z != last {
          assert z in init;
          SettledGrows(z, env, now, after);
        }
      }
    }
  }

  /** Archives that are all settled contribute nothing and create nothing. */
  lemma {:induction false} ArchiveJobsSettled(zips: seq<Path>, env: Env, existing: set<Path>)
    requires forall z :: z in zips ==> Settled(z, env, existing)
    ensures ArchiveJobs(zips, env, existing) == Ok(([], existing))
    decreases |zips|
  {
    if zips != [] {
      ArchiveJobsSettled(zips[..|zips| - 1], env, existing);
      assert Settled(zips[|zips| - 1], env, existing);
      assert UnpackedJobs(zips[|zips| - 1], env, existing) == Ok(([], existing));
      var none: seq<Path> := [];
      assert none + none == none;
    }
  }

  /** Every archive under a command-line path is settled. */
  predicate PathSettled(path: Path, env: Env, existing: set<Path>)
  {
    forall z :: z in ZipsUnder(path, env) ==> Settled(z, env, existing)
  }

  /** After the paths have been processed, every archive under each of them is settled. */
  lemma {:induction false} JobsSettle(paths: seq<Path>, env: Env, existing: set<Path>)
    requires Jobs(paths, env, existing).Ok?
    ensures existing <= Jobs(paths, env, existing).value.1
    ensures forall p :: p in paths ==> PathSettled(p, env, Jobs(paths, env, existing).value.1)
    decreases |paths|
  {
    if paths != [] {
      var init := paths[..|paths| - 1];
      var last := paths[|paths| - 1];
      JobsSettle(init, env, existing);
      var now := Jobs(init, env, existing).value.1;
      var after := Jobs(paths, env, existing).value.1;
      ArchiveJobsSettle(ZipsUnder(last, env), env, now);
      assert after == ArchiveJobs(ZipsUnder(last, env), env, now).value.1;
      forall p | p in paths ensures PathSettled(p, env, after) {
        if p != last {
          assert p in init;
          forall z | z in ZipsUnder(p, env) ensures Settled(z, env, after) {
            SettledGrows(z, env, now, after);
          }
        }
      }
    }
  }

  /** Paths whose archives are all settled contribute nothing and create nothing. */
  lemma {:induction false} JobsSettled(paths: seq<Path>, env: Env, existing: set<Path>)
    requires forall p :: p in paths ==> PathSettled(p, env, existing)
    ensures Jobs(paths, env, existing) == Ok(([], existing))
    decreases |paths|
  {
    if paths != [] {
      var last := paths[|paths| - 1];
      JobsSettled(paths[..|paths| - 1], env, existing);
      assert PathSettled(last, env, existing);
      ArchiveJobsSettled(ZipsUnder(last, env), env, existing);
      var none: seq<Path> := [];
      assert none + none == none;
    }
  }

  /**
   * The list follows the order of the paths: the paths of `b` add their sources after
   * those of `a`, starting from the directories `a` left behind; an error in `a` ends it.
   */
  lemma {:induction false} JobsAppend(a: seq<Path>, b: seq<Path>, env: Env, existing: set<Path>)
    ensures Jobs(a, env, existing).Err? ==> Jobs(a + b, env, existing) == Jobs(a, env, existing)
    ensures Jobs(a, env, existing).Ok? ==>
      var (found, now) := Jobs(a, env, existing).value;
      Jobs(a + b, env, existing) == Extend(found, Jobs(b, env, now))
    decreases |b|
  {
    if b == [] {
      assert a + b == a;
      if Jobs(a, env, existing).Ok? {
        assert Jobs(a, env, existing).value.0 + b == Jobs(a, env, existing).value.0;
      }
    } else {
      var init := b[..|b| - 1];
      var last := b[|b| - 1];
      assert (a + b)[..|a + b| - 1] == a + init;
      assert (a + b)[|a + b| - 1] == last;
      JobsAppend(a, init, env, existing);
      if Jobs(a, env, existing).Ok? {
        var (found, now) := Jobs(a, env, existing).value;
        ThenPathExtend(found, Jobs(init, env, now), last, env);
      }
    }
  }

  /** Collecting one more path commutes with adding earlier sources in front. */
  lemma ThenPathExtend(found: seq<Path>, c: Collected, path: Path, env: Env)
    ensures ThenPath(Extend(found, c), path, env) == Extend(found, ThenPath(c, path, env))
  {
    if c.Ok? {
      var (middle, now) := c.value;
      ExtendExtend(found, middle, PathJobs(path, env, now));
    }
  }

  lemma ExtendExtend(found: seq<Path>, middle: seq<Path>, c: Collected)
    ensures Extend(found + middle, c) == Extend(found, Extend(middle, c))
  {
    if c.Ok? {
      assert (found + middle) + c.value.0 == found + (middle + c.value.0);
    }
  }

  /** Naming the same paths twice adds nothing: every archive under them was unpacked the first time. */
  lemma RepeatedPathsAddNothing(paths: seq<Path>, env: Env, existing: set<Path>)
    ensures Jobs(paths + paths, env, existing) == Jobs(paths, env, existing)
  {
    JobsAppend(paths, paths, env, existing);
    if Jobs(paths, env, existing).Ok? {
      var (found, now) := Jobs(paths, env, existing).value;
      JobsSettle(paths, env, existing);
      JobsSettled(paths, env, now);
      assert found + [] == found;
    }
  }

  /** A path whose archives are all settled by the earlier paths adds nothing. */
  lemma SettledPathAddsNothing(paths: seq<Path>, path: Path, env: Env, existing: set<Path>)
    requires Jobs(paths, env, existing).Ok?
    requires PathSettled(path, env, Jobs(paths, env, existing).value.1)
    ensures Jobs(paths + [path], env, existing) == Jobs(paths, env, existing)
  {
    var (found, now) := Jobs(paths, env, existing).value;
    assert (paths + [path])[..|paths|] == paths;
    ArchiveJobsSettled(ZipsUnder(path, env), env, now);
    assert found + [] == found;
  }

  /**
   * An archive named on the command line after a directory that holds it adds
   * nothing: the walk of the directory already unpacked it.
   */
  lemma ArchiveReachedTwice(dir: Path, zip: Path, env: Env, existing: set<Path>)
    requires zip in ZipsUnder(dir, env)
    ensures Jobs([dir, zip], env, existing) == Jobs([dir], env, existing)
  {
    assert [dir] + [zip] == [dir, zip];
    if Jobs([dir], env, existing).Ok? {
      JobsSettle([dir], env, existing);
      var now := Jobs([dir], env, existing).value.1;
      assert dir in [dir];
      assert PathSettled(dir, env, now);
      assert Settled(zip, env, now);
      assert EndsWithFold(zip, ".zip") by {
        GetAllMatchingYields(dir, ".zip", env.listing(dir, env.descend));
      }
      assert ZipsUnder(zip, env) == [zip];
      SettledPathAddsNothing([dir], zip, env, existing);
    } else {
      assert [dir, zip][..1] == [dir];
    }
  }

  // ---------------------------------------------------------------------------
  // Nothing lost: the sources of every new directory are collected

  /** Every source under `dir` is in `found`. */
  predicate Collects(found: seq<Path>, dir: Path, env: Env)
  {
    forall f :: f in Files(dir, env) ==> f in found
  }

  /** `j` lies under a directory that is in `now` but was not in `existing`. */
  predicate UnderNew(j: Path, now: set<Path>, existing: set<Path>, env: Env)
  {
    exists d :: d in now && d !in existing && j in Files(d, env)
  }

  /**
   * `found` is exactly the sources under the directories in `now` that were not in
   * `existing`: each such directory has all its sources in `found`, and each source
   * in `found` lies under one of them.
   */
  predicate CollectsNew(found: seq<Path>, now: set<Path>, existing: set<Path>, env: Env)
  {
    && existing <= now
    && (forall d :: d in now && d !in existing ==> Collects(found, d, env))
    && (forall j :: j in found ==> UnderNew(j, now, existing, env))
  }

  /** Two steps that each collect exactly their new directories' sources together do the same. */
  lemma CollectsNewThen(found: seq<Path>, now: set<Path>, more: seq<Path>, after: set<Path>,
                        existing: set<Path>, env: Env)
    requires CollectsNew(found, now, existing, env) && CollectsNew(more, after, now, env)
    ensures CollectsNew(found + more, after, existing, env)
  {
    forall d | d in after && d !in existing ensures Collects(found + more, d, env) {
      if d in now {
        assert Collects(found, d, env);
      } else {
        assert Collects(more, d, env);
      }
    }
    forall j | j in found + more ensures UnderNew(j, after, existing, env) {
      if j in found {
        assert UnderNew(j, now, existing, env);
      } else {
        assert UnderNew(j, after, now, env);
      }
    }
  }

  /** Creating one directory collects exactly the sources under it. */
  lemma CollectsFresh(d: Path, existing: set<Path>, env: Env)
    requires d !in existing
    ensures CollectsNew(Files(d, env), existing + {d}, existing, env)
  {
    forall j | j in Files(d, env) ensures UnderNew(j, existing + {d}, existing, env) {
      assert d in existing + {d};
    }
  }

  /** One archive collects exactly the sources of the directory it creates, if any. */
  lemma UnpackedJobsCollect(zip: Path, env: Env, existing: set<Path>)
    requires UnpackedJobs(zip, env, existing).Ok?
    ensures CollectsNew(UnpackedJobs(zip, env, existing).value.0, UnpackedJobs(zip, env, existing).value.1, existing, env)
  {
    UnpackedJobsCases(zip, env, existing);
    var dest := Dest(zip, env);
    if dest.Some? && dest.value !in existing {
      CollectsFresh(dest.value, existing, env);
    } else {
      var none: seq<Path> := [];
      assert CollectsNew(none, existing, existing, env);
    }
  }

  /** A run of archives collects exactly the sources under the directories it creates. */
  lemma {:induction false} ArchiveJobsCollect(zips: seq<Path>, env: Env, existing: set<Path>)
    requires ArchiveJobs(zips, env, existing).Ok?
    ensures CollectsNew(ArchiveJobs(zips, env, existing).value.0, ArchiveJobs(zips, env, existing).value.1, existing, env)
    decreases |zips|
  {
    if zips != [] {
      var init := zips[..|zips| - 1];
      var last := zips[|zips| - 1];
      assert ArchiveJobs(zips, env, existing) == ThenArchive(ArchiveJobs(init, env, existing), last, env);
      ArchiveJobsCollect(init, env, existing);
      var (found, now) := ArchiveJobs(init, env, existing).value;
      UnpackedJobsCollect(last, env, now);
      var (more, after) := UnpackedJobs(last, env, now).value;
      CollectsNewThen(found, now, more, after, existing, env);
    }
  }

  /** The whole run collects exactly the sources under the directories it creates. */
  lemma {:induction false} JobsCollect(paths: seq<Path>, env: Env, existing: set<Path>)
    requires Jobs(paths, env, existing).Ok?
    ensures CollectsNew(Jobs(paths, env, existing).value.0, Jobs(paths, env, existing).value.1, existing, env)
    decreases |paths|
  {
    if paths != [] {
      var init := paths[..|paths| - 1];
      var last := paths[|paths| - 1];
      assert Jobs(paths, env, existing) == ThenPath(Jobs(init, env, existing), last, env);
      JobsCollect(init, env, existing);
      var (found, now) := Jobs(init, env, existing).value;
      ArchiveJobsCollect(ZipsUnder(last, env), env, now);
      var (more, after) := PathJobs(last, env, now).value;
      CollectsNewThen(found, now, more, after, existing, env);
    }
  }

  /**
   * Nothing is lost among a path's archives: an archive whose destination did not
   * exist has that directory created, and every source under it collected.
   */
  lemma ArchiveJobsNothingLost(zips: seq<Path>, env: Env, existing: set<Path>, zip: Path)
    requires ArchiveJobs(zips, env, existing).Ok?
    requires zip in zips && Dest(zip, env).Some? && Dest(zip, env).value !in existing
    ensures Dest(zip, env).value in ArchiveJobs(zips, env, existing).value.1
    ensures Collects(ArchiveJobs(zips, env, existing).value.0, Dest(zip, env).value, env)
  {
    ArchiveJobsSettle(zips, env, existing);
    ArchiveJobsCollect(zips, env, existing);
    var now := ArchiveJobs(zips, env, existing).value.1;
    assert Settled(zip, env, now);
    UnpackedJobsCases(zip, env, now);
  }

  /**
   * Nothing is lost in the whole run: an archive found under a command-line path
   * whose destination did not exist before the run is unpacked, and every source
   * under it is in the list.
   */
  lemma JobsNothingLost(paths: seq<Path>, env: Env, existing: set<Path>, path: Path, zip: Path)
    requires Jobs(paths, env, existing).Ok?
    requires path in paths && zip in ZipsUnder(path, env)
    requires Dest(zip, env).Some? && Dest(zip, env).value !in existing
    ensures Dest(zip, env).value in Jobs(paths, env, existing).value.1
    ensures Collects(Jobs(paths, env, existing).value.0, Dest(zip, env).value, env)
  {
    JobsSettle(paths, env, existing);
    JobsCollect(paths, env, existing);
    var now := Jobs(paths, env, existing).value.1;
    assert PathSettled(path, env, now);
    assert Settled(zip, env, now);
    UnpackedJobsCases(zip, env, now);
  }
}
