/**
 Migrating the configuration file between versions. config.toml is a plain file or a symlink to one of the
 numbered copies config/config.toml.<version>. Any file operation may fail, or the program may be killed in it:
 the model is told after how many operations that happens. A write that is interrupted has already emptied its
 file, or not, and may have written part of it: what it leaves there is arbitrary.
 */
module ConfigMigrate {
  import opened Basics

  datatype Content = Toml(version: nat, text: string) | Garbage

  datatype Main = Missing | Regular(content: Content) | Link(target: nat)

  /** config.toml and the numbered copies. */
  datatype Repo = Repo(main: Main, files: map<nat, Content>)

  /** Finished, with so many operations left that work; or ended with an error. */
  datatype Outcome = Done(repo: Repo, left: nat) | Failed(repo: Repo)

  /** A migration script: from version k and the current content to the next content, or an error. */
  type Scripts = (nat, Content) -> Option<Content>

  /** Scripts are defined for versions below this one. */
  const SCRIPTS: nat := 6

  /** What reading config.toml finds. */
  function Resolve(repo: Repo): Option<Content> {
    match repo.main
    case Missing => None
    case Regular(c) => Some(c)
    case Link(v) => if v in repo.files then Some(repo.files[v]) else None
  }

  function Write(repo: Repo, v: nat, c: Content): Repo {
    repo.(files := repo.files[v := c])
  }

  /** A write that is interrupted: None when it did not get as far as emptying the file. */
  function WriteTorn(repo: Repo, v: nat, torn: Option<Content>): Repo {
    if torn.None? then repo else Write(repo, v, torn.value)
  }

  /** One version up: copy, migrate, write under the number of the version aimed at, replace the symlink. */
  function OneUp(
    repo: Repo, scripts: Scripts, oldVersion: nat, toVersion: nat, left: nat, torn: Option<Content>): Outcome
  {
    if Resolve(repo).None? || left < 1 then Failed(repo)
    else if left < 2 then Failed(WriteTorn(repo, oldVersion, torn))
    else
      var copied := Write(repo, oldVersion, Resolve(repo).value);
      if oldVersion >= SCRIPTS || left < 3 || Resolve(copied).None? then Failed(copied)
      else
        var migrated := scripts(oldVersion, Resolve(copied).value);
        if migrated.None? then Failed(copied)
        else if left < 4 then Failed(WriteTorn(copied, toVersion, torn))
        else
          var written := Write(copied, toVersion, migrated.value);
          if left < 5 then Failed(written)
          else if left < 6 then Failed(written.(main := Missing))
          else Done(written.(main := Link(toVersion)), left - 6)
  }

  function Up(
    repo: Repo, scripts: Scripts, fromVersion: nat, toVersion: nat, left: nat, torn: Option<Content>): Outcome
    decreases toVersion - fromVersion
  {
    if fromVersion >= toVersion then Done(repo, left)
    else
      match OneUp(repo, scripts, fromVersion, toVersion, left, torn)
      case Done(next, left2) => Up(next, scripts, fromVersion + 1, toVersion, left2, torn)
      case Failed(next) => Failed(next)
  }

  function Down(repo: Repo, toVersion: nat, left: nat): Outcome {
    if toVersion == 0 then Done(repo, left)
    else if left < 1 || toVersion !in repo.files then Failed(repo)
    else if left < 2 || repo.main.Missing? then Failed(repo)
    else if left < 3 then Failed(repo.(main := Missing))
    else Done(repo.(main := Link(toVersion)), left - 3)
  }

  /** A file that does not exist counts as version 0. */
  function VersionOf(repo: Repo): Option<nat> {
    match Resolve(repo)
    case None => Some(0)
    case Some(Garbage) => None
    case Some(Toml(v, _)) => Some(v)
  }

  function Migrate(repo: Repo, scripts: Scripts, toVersion: nat, left: nat, torn: Option<Content>): Outcome {
    if left < 2 || VersionOf(repo).None? then Failed(repo)
    else if VersionOf(repo).value < toVersion then Up(repo, scripts, VersionOf(repo).value, toVersion, left - 2, torn)
    else if VersionOf(repo).value > toVersion then Down(repo, toVersion, left - 2)
    else Done(repo, left - 2)
  }

  // ---- the program ----

  class ConfigDir {
    var main: Main
    var files: map<nat, Content>
    var left: nat                       // operations that will still work
    const torn: Option<Content>         // what a write that is interrupted leaves in its file

    ghost function State(): Repo
      reads this
    {
      Repo(main, files)
    }

    /** The result of a method is the outcome, read off the object. */
    ghost predicate Is(ok: bool, o: Outcome)
      reads this
    {
      match o
      case Done(repo, n) => ok && State() == repo && left == n
      case Failed(repo) => !ok && State() == repo
    }

    constructor (repo: Repo, left: nat, torn: Option<Content>)
      ensures State() == repo && this.left == left && this.torn == torn
    {
      main, files, this.left, this.torn := repo.main, repo.files, left, torn;
    }

    method Operation() returns (ok: bool)
      modifies this`left
      ensures ok <==> old(left) > 0
      ensures ok ==> left == old(left) - 1
    {
      ok := left > 0;
      if ok { left := left - 1; }
    }

    method ReadConfig() returns (content: Option<Content>)
      modifies this`left
      ensures content == if old(left) > 0 then Resolve(State()) else None
      ensures old(left) > 0 ==> left == old(left) - 1
    {
      var ok := Operation();
      if !ok { return None; }
      match main {
        case Missing => content := None;
        case Regular(c) => content := Some(c);
        case Link(v) => content := if v in files then Some(files[v]) else None;
      }
    }

    method WriteFile(v: nat, c: Content) returns (ok: bool)
      modifies this`left, this`files
      ensures ok <==> old(left) > 0
      ensures State() == if ok then Write(old(State()), v, c) else WriteTorn(old(State()), v, torn)
      ensures ok ==> left == old(left) - 1
    {
      ok := Operation();
      if ok {
        files := files[v := c];
      } else if torn.Some? {
        files := files[v := torn.value];
      }
    }

    method MakeSymlink(v: nat) returns (ok: bool)
      modifies this`left, this`main
      ensures ok <==> old(left) >= 2 && !old(main).Missing?
      ensures main == if ok then Link(v) else if old(left) >= 1 then Missing else old(main)
      ensures ok ==> left == old(left) - 2
    {
      ok := Operation();
      if !ok || main.Missing? { return false; }
      main := Missing;
      ok := Operation();
      if !ok { return; }
      main := Link(v);
    }

    method MigrateUp(scripts: Scripts, fromVersion: nat, toVersion: nat) returns (ok: bool)
      modifies this
      ensures Is(ok, Up(old(State()), scripts, fromVersion, toVersion, old(left), torn))
    {
      var oldVersion := fromVersion;
      while oldVersion < toVersion
        invariant Up(State(), scripts, oldVersion, toVersion, left, torn)
               == Up(old(State()), scripts, fromVersion, toVersion, old(left), torn)
        decreases toVersion - oldVersion
      {
        ok := StepUp(scripts, oldVersion, toVersion);
        if !ok { return; }
        oldVersion := oldVersion + 1;
      }
      ok := true;
    }

    /** The body of the loop. */
    method StepUp(scripts: Scripts, oldVersion: nat, toVersion: nat) returns (ok: bool)
      modifies this
      ensures Is(ok, OneUp(old(State()), scripts, oldVersion, toVersion, old(left), torn))
    {
      var oldContent := ReadConfig();
      if oldContent.None? { return false; }
      ok := WriteFile(oldVersion, oldContent.value);
      if !ok { return; }
      if oldVersion >= SCRIPTS { return false; }
      var current := ReadConfig();
      if current.None? { return false; }
      var newContent := scripts(oldVersion, current.value);
      if newContent.None? { return false; }
      ok := WriteFile(toVersion, newContent.value);
      if !ok { return; }
      ok := MakeSymlink(toVersion);
    }

    method MigrateDown(toVersion: nat) returns (ok: bool)
      modifies this
      ensures Is(ok, Down(old(State()), toVersion, old(left)))
    {
      if toVersion == 0 { return true; }
      ok := Operation();
      if !ok || toVersion !in files { return false; }
      ok := MakeSymlink(toVersion);
    }

    method ConfigMigrate(scripts: Scripts, toVersion: nat) returns (ok: bool)
      modifies this
      ensures Is(ok, Migrate(old(State()), scripts, toVersion, old(left), torn))
    {
      if left == 0 { return false; }
      var content := ReadConfig();
      if content == Some(Garbage) { return false; }
      var version := if content.None? then 0 else content.value.version;
      ok := Operation();                // creating the directory of the copies
      if !ok { return; }
      if version < toVersion {
        ok := MigrateUp(scripts, version, toVersion);
      } else if version > toVersion {
        ok := MigrateDown(toVersion);
      } else {
        ok := true;
      }
    }
  }

  // ---- what migrating up leaves behind ----

  /** Script k produces content of version k + 1. */
  ghost predicate Versioned(scripts: Scripts) {
    forall k: nat, c :: scripts(k, c).Some? ==> scripts(k, c).value.Toml? && scripts(k, c).value.version == k + 1
  }

  /** The content c, migrated up to version k. */
  function At(scripts: Scripts, c: Content, k: nat): Option<Content>
    requires c.Toml?
    decreases k
  {
    if k <= c.version then Some(c)
    else if k > SCRIPTS then None
    else
      match At(scripts, c, k - 1)
      case None => None
      case Some(d) => scripts(k - 1, d)
  }

  lemma {:induction false} AtVersion(scripts: Scripts, c: Content, k: nat)
    requires c.Toml? && Versioned(scripts) && k >= c.version && At(scripts, c, k).Some?
    ensures At(scripts, c, k).value.Toml? && At(scripts, c, k).value.version == k
    decreases k
  {
    if k > c.version {
      AtVersion(scripts, c, k - 1);
    }
  }

  lemma {:induction false} AtEarlier(scripts: Scripts, c: Content, j: nat, k: nat)
    requires c.Toml? && j <= k && At(scripts, c, k).Some?
    ensures At(scripts, c, j).Some?
    decreases k
  {
    if j < k && k > c.version { AtEarlier(scripts, c, j, k - 1); }
  }

  lemma {:induction false} AtFrom(scripts: Scripts, c: Content, u: nat, k: nat)
    requires c.Toml? && Versioned(scripts) && c.version <= u <= k && At(scripts, c, u).Some?
    ensures At(scripts, c, u).value.Toml?
    ensures At(scripts, At(scripts, c, u).value, k) == At(scripts, c, k)
    decreases k
  {
    AtVersion(scripts, c, u);
    if k > u { AtFrom(scripts, c, u, k - 1); }
  }

  /** The copies after a complete migration of c to version w: one for every version from the first to the last,
      and all others as before. */
  function Final(files0: map<nat, Content>, scripts: Scripts, c: Content, w: nat): map<nat, Content>
    requires c.Toml?
  {
    map j | j in files0.Keys + Versions(c.version, w)
      :: if c.version <= j <= w then Get(At(scripts, c, j)) else files0[j]
  }

  function Versions(first: nat, last: nat): (vs: set<nat>)
    ensures forall v :: v in vs <==> first <= v <= last
    decreases last
  {
    if first > last then {} else if last == 0 then {0} else Versions(first, last - 1) + {last}
  }

  function Get(content: Option<Content>): Content {
    if content.Some? then content.value else Garbage
  }

  /** There is a copy for version j, and it holds c migrated to j. */
  predicate Copied(files: map<nat, Content>, scripts: Scripts, c: Content, j: nat)
    requires c.Toml?
  {
    j in files && Some(files[j]) == At(scripts, c, j)
  }

  predicate SameCopy(files: map<nat, Content>, files0: map<nat, Content>, j: nat) {
    (j in files <==> j in files0) && (j in files ==> files[j] == files0[j])
  }

  /** How a migration of c to version w looks half-way: config.toml holds c at version k, the versions before
      that have been copied, and other copies are as they were. */
  ghost predicate Midway(repo0: Repo, repo: Repo, scripts: Scripts, c: Content, w: nat, k: nat)
    requires c.Toml?
  {
    && c.version <= k <= w
    && Resolve(repo).Some? && Resolve(repo) == At(scripts, c, k)
    && (k == w ==> repo.main == Link(w))
    && (forall j: nat {:trigger Copied(repo.files, scripts, c, j)} ::
          c.version <= j < k ==> Copied(repo.files, scripts, c, j))
    && (forall j: nat {:trigger SameCopy(repo.files, repo0.files, j)} ::
          j < c.version || k < j < w || j > w ==> SameCopy(repo.files, repo0.files, j))
  }

  /** Writing a copy that is not among those already made leaves them alone. */
  lemma WriteKeepsCopies(repo0: Repo, repo: Repo, scripts: Scripts, c: Content, w: nat, k: nat, v: nat, d: Content)
    requires c.Toml? && Midway(repo0, repo, scripts, c, w, k) && k <= w && (v == k || v == w)
    ensures forall j: nat {:trigger Copied(Write(repo, v, d).files, scripts, c, j)} ::
              c.version <= j < k ==> Copied(Write(repo, v, d).files, scripts, c, j)
    ensures forall j: nat {:trigger SameCopy(Write(repo, v, d).files, repo0.files, j)} ::
              j < c.version || k < j < w || j > w ==> SameCopy(Write(repo, v, d).files, repo0.files, j)
  {
    forall j: nat | c.version <= j < k ensures Copied(Write(repo, v, d).files, scripts, c, j) {
      assert Copied(repo.files, scripts, c, j);
    }
    forall j: nat | j < c.version || k < j < w || j > w ensures SameCopy(Write(repo, v, d).files, repo0.files, j) {
      assert SameCopy(repo.files, repo0.files, j);
    }
  }

  /** The repository half-way with the copy of the current version made. */
  lemma CopyMidway(repo0: Repo, repo: Repo, scripts: Scripts, c: Content, w: nat, k: nat)
    requires c.Toml? && k < w && Midway(repo0, repo, scripts, c, w, k)
    ensures var copied := Write(repo, k, Resolve(repo).value);
            Resolve(copied) == Resolve(repo) && Midway(repo0, copied, scripts, c, w, k)
  {
    WriteKeepsCopies(repo0, repo, scripts, c, w, k, k, Resolve(repo).value);
  }

  /** Writing the next version under the number of the last one: at once the current content if config.toml
      is a link to it, and otherwise when the link has been replaced. */
  lemma WriteMidway(repo0: Repo, copied: Repo, scripts: Scripts, c: Content, w: nat, k: nat, d: Content)
    requires c.Toml? && k < w && Midway(repo0, copied, scripts, c, w, k)
    requires k in copied.files && copied.files[k] == Resolve(copied).value && At(scripts, c, k + 1) == Some(d)
    ensures var written := Write(copied, w, d);
            && Midway(repo0, written, scripts, c, w, if copied.main == Link(w) then k + 1 else k)
            && Midway(repo0, written.(main := Link(w)), scripts, c, w, k + 1)
  {
    var written := Write(copied, w, d);
    WriteKeepsCopies(repo0, copied, scripts, c, w, k, w, d);
    assert Copied(copied.files, scripts, c, k);
    assert Copied(written.files, scripts, c, k);
    assert copied.main != Link(w) ==> Resolve(written) == Resolve(copied);
  }

  lemma NextScript(repo: Repo, scripts: Scripts, c: Content, k: nat)
    requires c.Toml? && c.version <= k && Resolve(repo).Some? && Resolve(repo) == At(scripts, c, k)
    ensures At(scripts, c, k + 1) == if k >= SCRIPTS then None else scripts(k, Resolve(repo).value)
  {
  }

  /** One version up from half-way works exactly when there is a script, the script works, and no operation
      fails. */
  lemma OneUpMidway(
    repo0: Repo, repo: Repo, scripts: Scripts, c: Content, w: nat, k: nat, left: nat, torn: Option<Content>)
    requires c.Toml? && k < w && Midway(repo0, repo, scripts, c, w, k)
    ensures var o := OneUp(repo, scripts, k, w, left, torn);
            && (o.Done? <==> At(scripts, c, k + 1).Some? && left >= 6)
            && (o.Done? ==> o.left == left - 6 && o.repo.main == Link(w) && Midway(repo0, o.repo, scripts, c, w, k + 1))
  {
    CopyMidway(repo0, repo, scripts, c, w, k);
    NextScript(repo, scripts, c, k);
    if At(scripts, c, k + 1).Some? {
      WriteMidway(repo0, Write(repo, k, Resolve(repo).value), scripts, c, w, k, At(scripts, c, k + 1).value);
    }
  }

  /** Migrating up from half-way. */
  lemma {:induction false} UpMidway(
    repo0: Repo, repo: Repo, scripts: Scripts, c: Content, w: nat, k: nat, left: nat, torn: Option<Content>)
    requires c.Toml? && Midway(repo0, repo, scripts, c, w, k)
    ensures var o := Up(repo, scripts, k, w, left, torn);
            && (o.Done? <==> At(scripts, c, w).Some? && left >= 6 * (w - k))
            && (o.Done? ==> o.left == left - 6 * (w - k) && Midway(repo0, o.repo, scripts, c, w, w))
    decreases w - k
  {
    if k < w {
      OneUpMidway(repo0, repo, scripts, c, w, k, left, torn);
      var o := OneUp(repo, scripts, k, w, left, torn);
      if o.Done? {
        UpMidway(repo0, o.repo, scripts, c, w, k + 1, o.left, torn);
      } else if At(scripts, c, w).Some? {
        AtEarlier(scripts, c, k + 1, w);
      }
    }
  }

  /** The repository before a migration of its own content is half-way at its own version. */
  lemma StartsMidway(repo: Repo, scripts: Scripts, c: Content, w: nat)
    requires Resolve(repo) == Some(c) && c.Toml? && c.version < w
    ensures Midway(repo, repo, scripts, c, w, c.version)
  {
  }

  lemma MidwayEnd(repo0: Repo, repo: Repo, scripts: Scripts, c: Content, w: nat)
    requires c.Toml? && Midway(repo0, repo, scripts, c, w, w)
    ensures repo == Repo(Link(w), Final(repo0.files, scripts, c, w))
  {
    var final := Final(repo0.files, scripts, c, w);
    forall j: nat
      ensures (j in repo.files <==> j in final) && (j in repo.files ==> repo.files[j] == final[j])
    {
      if j < c.version || j > w {
        assert SameCopy(repo.files, repo0.files, j);
      } else if j < w {
        assert Copied(repo.files, scripts, c, j);
      }
    }
    assert repo.files == final;
  }

  /** What the copies hold. */
  lemma FinalAt(files0: map<nat, Content>, scripts: Scripts, c: Content, w: nat, u: nat)
    requires c.Toml? && c.version <= u <= w && At(scripts, c, w).Some?
    ensures u in Final(files0, scripts, c, w) && Some(Final(files0, scripts, c, w)[u]) == At(scripts, c, u)
  {
    AtEarlier(scripts, c, u, w);
  }

  lemma MigrateIsUp(repo: Repo, scripts: Scripts, w: nat, left: nat, torn: Option<Content>, v: nat)
    requires VersionOf(repo) == Some(v) && v < w && left >= 2
    ensures Migrate(repo, scripts, w, left, torn) == Up(repo, scripts, v, w, left - 2, torn)
  {
  }

  /** The outcome of migrating up from half-way when nothing gets in its way. */
  function Finished(files0: map<nat, Content>, scripts: Scripts, c: Content, w: nat, left: nat): Outcome
    requires c.Toml?
  {
    Done(Repo(Link(w), Final(files0, scripts, c, w)), left)
  }

  lemma UpFrom(repo0: Repo, repo: Repo, scripts: Scripts, c: Content, w: nat, k: nat, left: nat, torn: Option<Content>)
    requires c.Toml? && Midway(repo0, repo, scripts, c, w, k) && At(scripts, c, w).Some? && left >= 6 * (w - k)
    ensures Up(repo, scripts, k, w, left, torn) == Finished(repo0.files, scripts, c, w, left - 6 * (w - k))
  {
    UpMidway(repo0, repo, scripts, c, w, k, left, torn);
    MidwayEnd(repo0, Up(repo, scripts, k, w, left, torn).repo, scripts, c, w);
  }

  lemma UpFails(repo0: Repo, repo: Repo, scripts: Scripts, c: Content, w: nat, k: nat, left: nat, torn: Option<Content>)
    requires c.Toml? && Midway(repo0, repo, scripts, c, w, k) && !(At(scripts, c, w).Some? && left >= 6 * (w - k))
    ensures Up(repo, scripts, k, w, left, torn).Failed?
  {
    UpMidway(repo0, repo, scripts, c, w, k, left, torn);
  }

  /** Migrating up works exactly when all scripts on the way exist and work and no operation fails. Then
      config.toml is a link to the copy of the version aimed at, every version from the first to the last
      has its copy, and all other copies are as before. */
  lemma UpExactly(repo: Repo, scripts: Scripts, c: Content, w: nat, left: nat, torn: Option<Content>)
    requires Resolve(repo) == Some(c) && c.Toml? && c.version < w
    ensures Migrate(repo, scripts, w, left, torn).Done? <==>
            At(scripts, c, w).Some? && left >= 2 + 6 * (w - c.version)
    ensures Migrate(repo, scripts, w, left, torn).Done? ==>
              Migrate(repo, scripts, w, left, torn).repo == Repo(Link(w), Final(repo.files, scripts, c, w))
  {
    hide Midway, Up, At, Final;
    if left >= 2 {
      MigrateIsUp(repo, scripts, w, left, torn, c.version);
      StartsMidway(repo, scripts, c, w);
      if At(scripts, c, w).Some? && left - 2 >= 6 * (w - c.version) {
        UpFrom(repo, repo, scripts, c, w, c.version, left - 2, torn);
      } else {
        UpFails(repo, repo, scripts, c, w, c.version, left - 2, torn);
      }
    }
  }

  /** There is no script beyond version 6. */
  lemma NothingBeyondSix(repo: Repo, scripts: Scripts, c: Content, w: nat, left: nat, torn: Option<Content>)
    requires Resolve(repo) == Some(c) && c.Toml? && c.version < w && w > 6
    ensures Migrate(repo, scripts, w, left, torn).Failed?
  {
    UpExactly(repo, scripts, c, w, left, torn);
  }

  // ---- down ----

  /** Migrating down to a version from 1 on works exactly when there is a copy for that version and no
      operation fails; config.toml then is a link to that copy, and nothing else changes. Migrating down to
      version 0 does nothing. A failure changes nothing at all, except exactly when there is a copy and the
      symlink could not be made after config.toml had been removed. */
  lemma DownExactly(repo: Repo, scripts: Scripts, u: nat, left: nat, torn: Option<Content>)
    requires VersionOf(repo).Some? && VersionOf(repo).value > u
    ensures var o := Migrate(repo, scripts, u, left, torn);
            && (o.Done? <==> left >= 2 && (u == 0 || (u in repo.files && left >= 5)))
            && o.repo.files == repo.files
            && (o.Done? && u >= 1 ==> Resolve(o.repo) == Some(repo.files[u]))
            && (o.Done? ==> o.repo.main == if u >= 1 then Link(u) else repo.main)
            && (o.Failed? ==> o.repo.main == if u >= 1 && u in repo.files && left == 4 then Missing else repo.main)
  {
  }

  /** A configuration that has the version asked for, or cannot be read, stays as it is. */
  lemma NothingToDo(repo: Repo, scripts: Scripts, w: nat, left: nat, torn: Option<Content>)
    requires VersionOf(repo) == Some(w) || VersionOf(repo).None?
    ensures Migrate(repo, scripts, w, left, torn).repo == repo
    ensures Migrate(repo, scripts, w, left, torn).Done? <==> left >= 2 && VersionOf(repo) == Some(w)
  {
  }

  /** After migrating up from v to w, migrating down to any u from max(v, 1) to w - 1 brings back exactly the
      content the migration had at version u. */
  lemma UpThenDown(repo: Repo, scripts: Scripts, c: Content, w: nat, left: nat, u: nat, left2: nat,
                   torn: Option<Content>, up: Repo)
    requires Versioned(scripts) && Resolve(repo) == Some(c) && c.Toml?
    requires c.version <= u < w && u >= 1 && left2 >= 5
    requires Migrate(repo, scripts, w, left, torn).Done? && up == Migrate(repo, scripts, w, left, torn).repo
    ensures Migrate(up, scripts, u, left2, torn).Done?
    ensures Resolve(Migrate(up, scripts, u, left2, torn).repo) == At(scripts, c, u)
    ensures VersionOf(Migrate(up, scripts, u, left2, torn).repo) == Some(u)
    ensures Migrate(up, scripts, u, left2, torn).repo.files == up.files
  {
    UpExactly(repo, scripts, c, w, left, torn);
    UpVersion(repo.files, scripts, c, w, u);
    DownExactly(up, scripts, u, left2, torn);
  }

  lemma UpVersion(files0: map<nat, Content>, scripts: Scripts, c: Content, w: nat, u: nat)
    requires Versioned(scripts) && c.Toml? && c.version <= u < w && At(scripts, c, w).Some?
    ensures VersionOf(Repo(Link(w), Final(files0, scripts, c, w))) == Some(w)
    ensures u in Final(files0, scripts, c, w) && Some(Final(files0, scripts, c, w)[u]) == At(scripts, c, u)
    ensures Final(files0, scripts, c, w)[u].Toml? && Final(files0, scripts, c, w)[u].version == u
  {
    FinalAt(files0, scripts, c, w, w);
    FinalAt(files0, scripts, c, w, u);
    AtVersion(scripts, c, w);
    AtVersion(scripts, c, u);
  }

  /** Copies made from the content at a version on the way are those made from the start. */
  lemma FinalFrom(files0: map<nat, Content>, scripts: Scripts, c: Content, u: nat, w: nat)
    requires c.Toml? && Versioned(scripts) && c.version <= u <= w && At(scripts, c, w).Some?
    requires At(scripts, c, u).Some? && At(scripts, c, u).value.Toml?
    ensures Final(Final(files0, scripts, c, w), scripts, At(scripts, c, u).value, w) == Final(files0, scripts, c, w)
  {
    var d := At(scripts, c, u).value;
    var once := Final(files0, scripts, c, w);
    var again := Final(once, scripts, d, w);
    AtVersion(scripts, c, u);
    assert again.Keys == once.Keys;
    forall j | j in once ensures again[j] == once[j] {
      if u <= j <= w { AtFrom(scripts, c, u, j); }
    }
  }

  /** Up, down and up again leaves everything, all copies included, as going up once does. */
  lemma UpDownUp(repo: Repo, scripts: Scripts, c: Content, w: nat, left: nat, u: nat, left2: nat, left3: nat,
                 torn: Option<Content>, up: Repo, down: Repo)
    requires Versioned(scripts) && Resolve(repo) == Some(c) && c.Toml?
    requires c.version <= u < w && u >= 1 && left2 >= 5 && left3 >= 2 + 6 * (w - u)
    requires Migrate(repo, scripts, w, left, torn).Done? && up == Migrate(repo, scripts, w, left, torn).repo
    requires down == Migrate(up, scripts, u, left2, torn).repo
    ensures Migrate(down, scripts, w, left3, torn).Done? && Migrate(down, scripts, w, left3, torn).repo == up
  {
    UpExactly(repo, scripts, c, w, left, torn);
    UpThenDown(repo, scripts, c, w, left, u, left2, torn, up);
    AtFrom(scripts, c, u, w);
    UpExactly(down, scripts, At(scripts, c, u).value, w, left3, torn);
    FinalFrom(repo.files, scripts, c, u, w);
  }

  // ---- where a migration may stop ----

  /** Stopping after so many operations of migrating up from version k does no harm: not between removing
      config.toml and making the symlink, and not in a write to the file that config.toml is a link to. That
      file is the copy of the current version for a first step, and the copy of the version aimed at for every
      later one. */
  predicate SafeUp(main: Main, k: nat, w: nat, left: nat)
    decreases w - k
  {
    if k >= w then true
    else if left >= 6 then SafeUp(Link(w), k + 1, w, left - 6)
    else !(left == 5) && !(left == 3 && main == Link(w)) && !(left == 1 && main == Link(k))
  }

  /** Where a stop that does no harm leaves config.toml, and the version it then holds. */
  function AfterUp(main: Main, k: nat, w: nat, left: nat): (Main, nat)
    decreases w - k
  {
    if k >= w then (main, k)
    else if left >= 6 then AfterUp(Link(w), k + 1, w, left - 6)
    else (main, if left == 4 && main == Link(w) then k + 1 else k)
  }

  /** An attempt first reads the version and makes the directory. */
  predicate Safe(main: Main, k: nat, w: nat, left: nat) {
    left < 2 || SafeUp(main, k, w, left - 2)
  }

  function After(main: Main, k: nat, w: nat, left: nat): (Main, nat) {
    if left < 2 then (main, k) else AfterUp(main, k, w, left - 2)
  }

  /** config.toml is missing or cannot be read. */
  predicate Broken(repo: Repo) {
    repo.main.Missing? || Resolve(repo) == Some(Garbage)
  }

  /** The repository is half-way, with config.toml and its version as told. */
  ghost predicate StoppedAt(repo0: Repo, repo: Repo, scripts: Scripts, c: Content, w: nat, place: (Main, nat))
    requires c.Toml?
  {
    repo.main == place.0 && Midway(repo0, repo, scripts, c, w, place.1)
  }

  /** A stop inside one version up. */
  lemma OneUpStopsSafely(
    repo0: Repo, repo: Repo, scripts: Scripts, c: Content, w: nat, k: nat, left: nat, torn: Option<Content>)
    requires c.Toml? && k < w && Midway(repo0, repo, scripts, c, w, k) && (At(scripts, c, k + 1).Some? || left < 2)
    requires left < 6 && SafeUp(repo.main, k, w, left)
    ensures OneUp(repo, scripts, k, w, left, torn).Failed?
    ensures StoppedAt(repo0, OneUp(repo, scripts, k, w, left, torn).repo, scripts, c, w, AfterUp(repo.main, k, w, left))
  {
    var copied := Write(repo, k, Resolve(repo).value);
    CopyMidway(repo0, repo, scripts, c, w, k);
    NextScript(repo, scripts, c, k);
    if left == 1 {
      TornElsewhere(repo0, repo, scripts, c, w, k, k, torn);
    } else if left == 3 {
      TornElsewhere(repo0, copied, scripts, c, w, k, w, torn);
    } else if left == 4 {
      WriteMidway(repo0, copied, scripts, c, w, k, At(scripts, c, k + 1).value);
    }
  }

  /** A torn write to a copy that config.toml is not a link to. */
  lemma TornElsewhere(
    repo0: Repo, repo: Repo, scripts: Scripts, c: Content, w: nat, k: nat, v: nat, torn: Option<Content>)
    requires c.Toml? && k < w && Midway(repo0, repo, scripts, c, w, k) && (v == k || v == w) && repo.main != Link(v)
    ensures Midway(repo0, WriteTorn(repo, v, torn), scripts, c, w, k)
  {
    assert Resolve(WriteTorn(repo, v, torn)) == Resolve(repo);
    if torn.Some? { WriteKeepsCopies(repo0, repo, scripts, c, w, k, v, torn.value); }
  }

  lemma OneUpStopsBadly(repo0: Repo, repo: Repo, scripts: Scripts, c: Content, w: nat, k: nat, left: nat)
    requires c.Toml? && k < w && Midway(repo0, repo, scripts, c, w, k) && At(scripts, c, k + 1).Some?
    requires left < 6 && !SafeUp(repo.main, k, w, left)
    ensures var o := OneUp(repo, scripts, k, w, left, Some(Garbage));
            o.Failed? && Broken(o.repo)
  {
    CopyMidway(repo0, repo, scripts, c, w, k);
    NextScript(repo, scripts, c, k);
  }

  lemma UpOnce(repo: Repo, scripts: Scripts, k: nat, w: nat, left: nat, torn: Option<Content>)
    requires k < w
    ensures var o := OneUp(repo, scripts, k, w, left, torn);
            Up(repo, scripts, k, w, left, torn) == if o.Done? then Up(o.repo, scripts, k + 1, w, o.left, torn) else o
  {
  }

  lemma SafeOnce(main: Main, k: nat, w: nat, left: nat)
    requires k < w && left >= 6
    ensures SafeUp(main, k, w, left) <==> SafeUp(Link(w), k + 1, w, left - 6)
    ensures AfterUp(main, k, w, left) == AfterUp(Link(w), k + 1, w, left - 6)
  {
  }

  lemma UpStopsAtEnd(
    repo0: Repo, repo: Repo, scripts: Scripts, c: Content, w: nat, left: nat, torn: Option<Content>)
    requires c.Toml? && Midway(repo0, repo, scripts, c, w, w)
    ensures StoppedAt(repo0, Up(repo, scripts, w, w, left, torn).repo, scripts, c, w, AfterUp(repo.main, w, w, left))
  {
  }

  /** Version m is the last one that can be reached, or the stop comes before it would matter. */
  lemma {:induction false} UpStopsSafely(
    repo0: Repo, repo: Repo, scripts: Scripts, c: Content, w: nat, k: nat, m: nat, left: nat, torn: Option<Content>)
    requires c.Toml? && Midway(repo0, repo, scripts, c, w, k) && k <= m <= w && At(scripts, c, m).Some?
    requires m == w || left < 6 * (m - k) + 2
    requires SafeUp(repo.main, k, w, left)
    ensures StoppedAt(repo0, Up(repo, scripts, k, w, left, torn).repo, scripts, c, w, AfterUp(repo.main, k, w, left))
    decreases w - k
  {
    hide OneUp, At, Up, SafeUp, AfterUp, StoppedAt;
    if k == w {
      UpStopsAtEnd(repo0, repo, scripts, c, w, left, torn);
    } else {
      if k < m { AtEarlier(scripts, c, k + 1, m); }
      UpOnce(repo, scripts, k, w, left, torn);
      if left >= 6 {
        OneUpMidway(repo0, repo, scripts, c, w, k, left, torn);
        SafeOnce(repo.main, k, w, left);
        UpStopsSafely(repo0, OneUp(repo, scripts, k, w, left, torn).repo, scripts, c, w, k + 1, m, left - 6, torn);
      } else {
        OneUpStopsSafely(repo0, repo, scripts, c, w, k, left, torn);
      }
    }
  }

  /** The migration has come to version m, and made its copy: config.toml is what it was if m is the first
      version, and otherwise a link to the copy of the version aimed at, which holds m. */
  ghost predicate StuckAt(repo0: Repo, repo: Repo, scripts: Scripts, c: Content, w: nat, m: nat, main: Main)
    requires c.Toml?
  {
    repo.main == main && Midway(repo0, repo, scripts, c, w, m) && Copied(repo.files, scripts, c, m)
  }

  lemma OneUpScriptFails(
    repo0: Repo, repo: Repo, scripts: Scripts, c: Content, w: nat, m: nat, left: nat, torn: Option<Content>)
    requires c.Toml? && m < w && Midway(repo0, repo, scripts, c, w, m) && At(scripts, c, m + 1).None? && left >= 2
    ensures OneUp(repo, scripts, m, w, left, torn).Failed?
    ensures StuckAt(repo0, OneUp(repo, scripts, m, w, left, torn).repo, scripts, c, w, m, repo.main)
  {
    CopyMidway(repo0, repo, scripts, c, w, m);
    NextScript(repo, scripts, c, m);
    assert Copied(Write(repo, m, Resolve(repo).value).files, scripts, c, m);
  }

  lemma {:induction false} UpScriptFails(
    repo0: Repo, repo: Repo, scripts: Scripts, c: Content, w: nat, k: nat, m: nat, left: nat, torn: Option<Content>)
    requires c.Toml? && Midway(repo0, repo, scripts, c, w, k) && k <= m < w
    requires At(scripts, c, m).Some? && At(scripts, c, m + 1).None? && left >= 6 * (m - k) + 2
    ensures Up(repo, scripts, k, w, left, torn).Failed?
    ensures StuckAt(repo0, Up(repo, scripts, k, w, left, torn).repo, scripts, c, w, m,
                    if m == k then repo.main else Link(w))
    decreases m - k
  {
    if k < m { AtEarlier(scripts, c, k + 1, m); }
    hide OneUp, At;
    UpOnce(repo, scripts, k, w, left, torn);
    if k < m {
      OneUpMidway(repo0, repo, scripts, c, w, k, left, torn);
      UpScriptFails(repo0, OneUp(repo, scripts, k, w, left, torn).repo, scripts, c, w, k + 1, m, left - 6, torn);
    } else {
      OneUpScriptFails(repo0, repo, scripts, c, w, m, left, torn);
    }
  }

  /** When a script is missing or fails at version m, migrating up fails, and leaves config.toml holding version m
      with the copies up to there made and all others as they were; stopped before that, it leaves what a stop at
      that operation always leaves. */
  lemma FailingScript(repo: Repo, scripts: Scripts, c: Content, w: nat, m: nat, left: nat, torn: Option<Content>)
    requires Resolve(repo) == Some(c) && c.Toml? && c.version <= m < w
    requires At(scripts, c, m).Some? && At(scripts, c, m + 1).None?
    ensures Migrate(repo, scripts, w, left, torn).Failed?
    ensures left >= 4 + 6 * (m - c.version) ==>
              StuckAt(repo, Migrate(repo, scripts, w, left, torn).repo, scripts, c, w, m,
                      if m == c.version then repo.main else Link(w))
    ensures left < 4 + 6 * (m - c.version) && Safe(repo.main, c.version, w, left) ==>
              StoppedAt(repo, Migrate(repo, scripts, w, left, torn).repo, scripts, c, w,
                        After(repo.main, c.version, w, left))
  {
    hide Up, At, SafeUp, AfterUp, Midway, Migrate, StuckAt, StoppedAt;
    if At(scripts, c, w).Some? { AtEarlier(scripts, c, m + 1, w); }
    UpExactly(repo, scripts, c, w, left, torn);
    StartsMidway(repo, scripts, c, w);
    if left < 2 {
      StopAtOnce(repo, scripts, c, w, left, torn);
    } else {
      MigrateIsUp(repo, scripts, w, left, torn, c.version);
      if left >= 4 + 6 * (m - c.version) {
        UpScriptFails(repo, repo, scripts, c, w, c.version, m, left - 2, torn);
      } else if SafeUp(repo.main, c.version, w, left - 2) {
        UpStopsSafely(repo, repo, scripts, c, w, c.version, m, left - 2, torn);
      }
    }
  }

  lemma StopAtOnce(repo: Repo, scripts: Scripts, c: Content, w: nat, left: nat, torn: Option<Content>)
    requires Resolve(repo) == Some(c) && c.Toml? && c.version < w && left < 2
    ensures StoppedAt(repo, Migrate(repo, scripts, w, left, torn).repo, scripts, c, w,
                      After(repo.main, c.version, w, left))
  {
    StartsMidway(repo, scripts, c, w);
  }

  lemma AttemptStopsSafely(
    repo0: Repo, repo: Repo, scripts: Scripts, c: Content, w: nat, k: nat, left: nat, torn: Option<Content>)
    requires c.Toml? && Versioned(scripts) && Midway(repo0, repo, scripts, c, w, k) && At(scripts, c, w).Some?
    requires Safe(repo.main, k, w, left)
    ensures StoppedAt(repo0, Migrate(repo, scripts, w, left, torn).repo, scripts, c, w, After(repo.main, k, w, left))
  {
    hide OneUp, At, SafeUp, AfterUp;
    MigrateMidway(repo0, repo, scripts, c, w, k, left, torn);
    if left >= 2 { UpStopsSafely(repo0, repo, scripts, c, w, k, w, left - 2, torn); }
  }

  lemma {:induction false} UpStopsBadly(
    repo0: Repo, repo: Repo, scripts: Scripts, c: Content, w: nat, k: nat, left: nat)
    requires c.Toml? && Midway(repo0, repo, scripts, c, w, k) && At(scripts, c, w).Some?
    requires !SafeUp(repo.main, k, w, left)
    ensures Broken(Up(repo, scripts, k, w, left, Some(Garbage)).repo)
    decreases w - k
  {
    if k < w {
      AtEarlier(scripts, c, k + 1, w);
      if left >= 6 {
        OneUpMidway(repo0, repo, scripts, c, w, k, left, Some(Garbage));
        UpStopsBadly(repo0, OneUp(repo, scripts, k, w, left, Some(Garbage)).repo, scripts, c, w, k + 1, left - 6);
      } else {
        OneUpStopsBadly(repo0, repo, scripts, c, w, k, left);
      }
    }
  }

  lemma MidwayVersion(repo0: Repo, repo: Repo, scripts: Scripts, c: Content, w: nat, k: nat)
    requires c.Toml? && Versioned(scripts) && Midway(repo0, repo, scripts, c, w, k)
    ensures VersionOf(repo) == Some(k)
  {
    AtVersion(scripts, c, k);
  }

  lemma MigrateMidway(
    repo0: Repo, repo: Repo, scripts: Scripts, c: Content, w: nat, k: nat, left: nat, torn: Option<Content>)
    requires c.Toml? && Versioned(scripts) && Midway(repo0, repo, scripts, c, w, k)
    ensures Migrate(repo, scripts, w, left, torn) ==
            if left < 2 then Failed(repo) else Up(repo, scripts, k, w, left - 2, torn)
  {
    MidwayVersion(repo0, repo, scripts, c, w, k);
  }

  /** A broken configuration stays as it is: every attempt fails at once. */
  lemma BrokenStays(repo: Repo, scripts: Scripts, w: nat, left: nat, torn: Option<Content>)
    requires Broken(repo) && w > 0
    ensures Migrate(repo, scripts, w, left, torn) == Failed(repo)
  {
  }

  // ---- interrupted migrations ----

  /** Any number of attempts one after the other; each may fail at some operation, and leave something in the
      file it was writing. */
  function Attempts(repo: Repo, scripts: Scripts, w: nat, lefts: seq<nat>, torns: seq<Option<Content>>): Repo
    requires |torns| == |lefts|
    decreases |lefts|
  {
    if lefts == [] then repo
    else Attempts(Migrate(repo, scripts, w, lefts[0], torns[0]).repo, scripts, w, lefts[1..], torns[1..])
  }

  /** No attempt stops where it does harm. */
  predicate SafeStops(main: Main, k: nat, w: nat, lefts: seq<nat>)
    decreases |lefts|
  {
    lefts == []
    || (Safe(main, k, w, lefts[0])
        && SafeStops(After(main, k, w, lefts[0]).0, After(main, k, w, lefts[0]).1, w, lefts[1..]))
  }

  lemma {:induction false} AttemptsSafe(
    repo0: Repo, repo: Repo, scripts: Scripts, c: Content, w: nat, k: nat, lefts: seq<nat>, torns: seq<Option<Content>>)
    returns (k2: nat)
    requires c.Toml? && Versioned(scripts) && Midway(repo0, repo, scripts, c, w, k) && At(scripts, c, w).Some?
    requires |torns| == |lefts| && SafeStops(repo.main, k, w, lefts)
    ensures Midway(repo0, Attempts(repo, scripts, w, lefts, torns), scripts, c, w, k2)
    decreases |lefts|
  {
    if lefts == [] {
      k2 := k;
    } else {
      AttemptStopsSafely(repo0, repo, scripts, c, w, k, lefts[0], torns[0]);
      var r := Migrate(repo, scripts, w, lefts[0], torns[0]).repo;
      k2 := AttemptsSafe(repo0, r, scripts, c, w, After(repo.main, k, w, lefts[0]).1, lefts[1..], torns[1..]);
    }
  }

  function AllGarbage(n: nat): seq<Option<Content>> {
    seq(n, i => Some(Garbage))
  }

  lemma {:induction false} AttemptsBroken(
    repo: Repo, scripts: Scripts, w: nat, lefts: seq<nat>, torns: seq<Option<Content>>)
    requires Broken(repo) && w > 0 && |torns| == |lefts|
    ensures Attempts(repo, scripts, w, lefts, torns) == repo
    decreases |lefts|
  {
    if lefts != [] {
      BrokenStays(repo, scripts, w, lefts[0], torns[0]);
      AttemptsBroken(repo, scripts, w, lefts[1..], torns[1..]);
    }
  }

  lemma {:induction false} AttemptsBad(
    repo0: Repo, repo: Repo, scripts: Scripts, c: Content, w: nat, k: nat, lefts: seq<nat>)
    requires c.Toml? && Versioned(scripts) && Midway(repo0, repo, scripts, c, w, k) && At(scripts, c, w).Some?
    requires w > 0 && !SafeStops(repo.main, k, w, lefts)
    ensures Broken(Attempts(repo, scripts, w, lefts, AllGarbage(|lefts|)))
    decreases |lefts|
  {
    var g := Some(Garbage);
    var rest := lefts[1..];
    assert AllGarbage(|lefts|)[1..] == AllGarbage(|rest|);
    var r := Migrate(repo, scripts, w, lefts[0], g).repo;
    if !Safe(repo.main, k, w, lefts[0]) {
      MigrateMidway(repo0, repo, scripts, c, w, k, lefts[0], g);
      UpStopsBadly(repo0, repo, scripts, c, w, k, lefts[0] - 2);
      AttemptsBroken(r, scripts, w, rest, AllGarbage(|rest|));
    } else {
      AttemptStopsSafely(repo0, repo, scripts, c, w, k, lefts[0], g);
      AttemptsBad(repo0, r, scripts, c, w, After(repo.main, k, w, lefts[0]).1, rest);
    }
  }

  /** After these attempts one more, with nothing in its way, ends as an uninterrupted migration does, with the
      same copies. */
  ghost predicate Resumes(
    repo: Repo, scripts: Scripts, w: nat, lefts: seq<nat>, torns: seq<Option<Content>>, left: nat)
    requires |torns| == |lefts|
  {
    var stopped := Attempts(repo, scripts, w, lefts, torns);
    SameEnd(Migrate(stopped, scripts, w, left, None), Migrate(repo, scripts, w, left, None))
  }

  predicate SameEnd(o: Outcome, o2: Outcome) {
    o.Done? && o2.Done? && o.repo == o2.repo
  }

  lemma SafeResumes(
    repo: Repo, scripts: Scripts, c: Content, w: nat, lefts: seq<nat>, torns: seq<Option<Content>>, left: nat)
    requires Versioned(scripts) && Resolve(repo) == Some(c) && c.Toml? && c.version < w
    requires At(scripts, c, w).Some? && left >= 2 + 6 * (w - c.version)
    requires |torns| == |lefts| && SafeStops(repo.main, c.version, w, lefts)
    ensures Resumes(repo, scripts, w, lefts, torns, left)
  {
    hide Midway, Migrate, SafeStops, Attempts, At, Final, Versioned;
    StartsMidway(repo, scripts, c, w);
    var k := AttemptsSafe(repo, repo, scripts, c, w, c.version, lefts, torns);
    ResumeMidway(repo, Attempts(repo, scripts, w, lefts, torns), scripts, c, w, k, left - 2);
    ResumeMidway(repo, repo, scripts, c, w, c.version, left - 2);
  }

  lemma MigrateIs(repo: Repo, scripts: Scripts, w: nat, k: nat, left: nat, o: Outcome)
    requires VersionOf(repo) == Some(k) && k <= w && Up(repo, scripts, k, w, left, None) == o
    ensures Migrate(repo, scripts, w, left + 2, None) == o
  {
  }

  lemma ResumeMidway(repo0: Repo, repo: Repo, scripts: Scripts, c: Content, w: nat, k: nat, left: nat)
    requires c.Toml? && Versioned(scripts) && Midway(repo0, repo, scripts, c, w, k)
    requires At(scripts, c, w).Some? && left >= 6 * (w - k)
    ensures Migrate(repo, scripts, w, left + 2, None) == Finished(repo0.files, scripts, c, w, left - 6 * (w - k))
  {
    MidwayVersion(repo0, repo, scripts, c, w, k);
    UpFrom(repo0, repo, scripts, c, w, k, left, None);
    MigrateIs(repo, scripts, w, k, left, Finished(repo0.files, scripts, c, w, left - 6 * (w - k)));
  }

  /** A migration interrupted any number of times ends, when it is run again to the end, exactly as one that was
      never interrupted, copies included and whatever the interrupted writes left behind, if and only if no
      attempt stopped between removing config.toml and making the symlink, or in a write to the file that
      config.toml was a link to. */
  lemma ResumeExactly(repo: Repo, scripts: Scripts, c: Content, w: nat, lefts: seq<nat>, left: nat)
    requires Versioned(scripts) && Resolve(repo) == Some(c) && c.Toml? && c.version < w
    requires At(scripts, c, w).Some? && left >= 2 + 6 * (w - c.version)
    ensures (forall torns: seq<Option<Content>> :: |torns| == |lefts| ==> Resumes(repo, scripts, w, lefts, torns, left))
       <==> SafeStops(repo.main, c.version, w, lefts)
  {
    if SafeStops(repo.main, c.version, w, lefts) {
      forall torns: seq<Option<Content>> | |torns| == |lefts| ensures Resumes(repo, scripts, w, lefts, torns, left) {
        SafeResumes(repo, scripts, c, w, lefts, torns, left);
      }
    } else {
      StartsMidway(repo, scripts, c, w);
      AttemptsBad(repo, repo, scripts, c, w, c.version, lefts);
      BrokenStays(Attempts(repo, scripts, w, lefts, AllGarbage(|lefts|)), scripts, w, left, None);
      assert !Resumes(repo, scripts, w, lefts, AllGarbage(|lefts|), left);
    }
  }

  /** Whatever happened before, the content of config.toml decides what a complete run makes of it: it ends with
      that content migrated to the last version. So if config.toml still holds c at the version it has come to,
      the run ends with c migrated to the last version. */
  lemma ResumeByContent(stopped: Repo, scripts: Scripts, c: Content, w: nat, k: nat, left: nat)
    requires Versioned(scripts) && c.Toml? && c.version <= k <= w && At(scripts, c, w).Some?
    requires Resolve(stopped).Some? && Resolve(stopped) == At(scripts, c, k) && left >= 2 + 6 * (w - k)
    ensures Migrate(stopped, scripts, w, left, None).Done?
    ensures Resolve(Migrate(stopped, scripts, w, left, None).repo) == At(scripts, c, w)
  {
    AtVersion(scripts, c, k);
    var d := Resolve(stopped).value;
    if k < w {
      AtFrom(scripts, c, k, w);
      UpExactly(stopped, scripts, d, w, left, None);
      FinalAt(stopped.files, scripts, d, w, w);
    }
  }

  /** Stopped between removing and linking: whenever the first script works there is an operation whose failure
      leaves the program without a configuration file, and running it again does not help. */
  lemma InterruptedLosesConfig(repo: Repo, scripts: Scripts, c: Content, w: nat, left: nat, torn: Option<Content>)
    requires Resolve(repo) == Some(c) && c.Toml? && c.version < w
    requires c.version < SCRIPTS && scripts(c.version, c).Some?
    ensures Migrate(repo, scripts, w, 7, torn).repo.main.Missing?
    ensures Migrate(Migrate(repo, scripts, w, 7, torn).repo, scripts, w, left, None).Failed?
  {
    MigrateIsUp(repo, scripts, w, 7, torn, c.version);
    assert Resolve(Write(repo, c.version, c)) == Some(c);
    BrokenStays(Migrate(repo, scripts, w, 7, torn).repo, scripts, w, left, None);
  }

  /** Stopped in a write to the live file after it was emptied: config.toml exists and is empty, which counts as
      version 0, and running the program again succeeds with the migration of an empty file. The first case is
      that of every step but the first, the second that of a first step whose config.toml already is a link to
      the copy of its own version. */
  lemma EmptiedConfigIsMigrated(repo: Repo, scripts: Scripts, c: Content, w: nat, stop: nat, left: nat)
    requires Resolve(repo) == Some(c) && c.Toml? && c.version < w
    requires c.version < SCRIPTS && scripts(c.version, c).Some?
    requires (repo.main == Link(w) && stop == 5) || (repo.main == Link(c.version) && stop == 3)
    requires At(scripts, Toml(0, ""), w).Some? && left >= 2 + 6 * w
    ensures var stopped := Migrate(repo, scripts, w, stop, Some(Toml(0, ""))).repo;
            && Resolve(stopped) == Some(Toml(0, ""))
            && Migrate(stopped, scripts, w, left, None).Done?
            && Resolve(Migrate(stopped, scripts, w, left, None).repo) == At(scripts, Toml(0, ""), w)
  {
    var empty := Toml(0, "");
    MigrateIsUp(repo, scripts, w, stop, Some(empty), c.version);
    assert Resolve(Write(repo, c.version, c)) == Some(c);
    var stopped := Migrate(repo, scripts, w, stop, Some(empty)).repo;
    assert Resolve(stopped) == Some(empty);
    UpExactly(stopped, scripts, empty, w, left, None);
    FinalAt(stopped.files, scripts, empty, w, w);
  }
}
