/**
  The agent's replacement of its configuration: four files and one child process, with failures and crashes anywhere.
  Every write or removal of a file is one step. `trace` keeps the files after every step, since a crash may leave the
  agent with any of them.
*/
module ConfigFiles {
  import opened Common

  // `rendered` says that the content is a configuration the agent accepts.
  datatype Content = Content(id: int, rendered: bool)

  // The hash identifies the content; a version file may hold anything else.
  datatype Version = HashOf(content: Content) | OtherText(id: int)

  datatype Document = Document(node: int, content: Content, version: Version)

  datatype StateFile = Garbled | StateFile(node: int, content: Content, version: Version, sha: Version)

  datatype Files = Files(state: Option<StateFile>, config: Option<Content>, version: Option<Version>, node: Option<int>)

  // What the agent finds when it looks for the last good configuration.
  datatype LastGood = Found(content: Content, version: Version) | Absent | Broken

  predicate ValidDocument(document: Document, node: int) {
    document.node == node && document.content.rendered && document.version == HashOf(document.content)
  }

  // The files hold this configuration of this node: the state file does, or there is none and the other three files do.
  predicate Holds(files: Files, node: int, content: Content) {
    || files.state == Some(StateFile(node, content, HashOf(content), HashOf(content)))
    || (files == Files(None, Some(content), Some(HashOf(content)), Some(node)))
  }

  function ReadLastGood(files: Files, node: int): (r: LastGood)
    ensures r.Found? ==> r.version == HashOf(r.content) && r.content.rendered && Holds(files, node, r.content)
    ensures forall content: Content :: content.rendered && Holds(files, node, content) ==> r == Found(content, HashOf(content))
    ensures r == Absent <==>
      && files.state.None?
      && (files.config.Some? ==>
            && files.config.value.rendered && files.version in {None, Some(HashOf(files.config.value))}
            && (files.version.Some? ==> files.node.None?))
  {
    if files.state.Some? then
      match files.state.value
      case Garbled => Broken
      case StateFile(n, content, version, sha) =>
        if n == node && content.rendered && version == HashOf(content) && sha == HashOf(content) then Found(content, version) else Broken
    else if files.config.None? then Absent
    else if !files.config.value.rendered then Broken
    else if files.version.None? then Absent
    else if files.version.value != HashOf(files.config.value) then Broken
    else if files.node.None? then Absent
    else if files.node.value != node then Broken
    else Found(files.config.value, files.version.value)
  }

  // ---- Which files can occur while one configuration replaces another ----

  // The files read as the old configuration or as the new one.
  ghost predicate Either(files: Files, node: int, before: LastGood, document: Document) {
    || ReadLastGood(files, node) == before
    || (ValidDocument(document, node) && ReadLastGood(files, node) == Found(document.content, document.version))
  }

  ghost predicate AllEither(trace: seq<Files>, node: int, before: LastGood, document: Document) {
    forall i :: 0 <= i < |trace| ==> Either(trace[i], node, before, document)
  }

  // ---- The agent ----

  class Core {
    const content: Content
    var exited: bool

    constructor (content: Content)
      ensures this.content == content && !exited
    {
      this.content, exited := content, false;
    }
  }

  class Agent {
    const node: int
    var files: Files
    var lastApplied: Option<Version>
    var owned: Core?
    var trace: seq<Files>
    // Since the agent started or last applied a configuration, a restoring write has failed, or a signal has failed
    // although the process was running.
    ghost var unlucky: bool
    // A rollback could not stop the new process or could not restore the old files.
    ghost var stuck: bool
    // How often something outside the agent has failed: a write, a check, a start, a signal, or the process itself.
    ghost var mishaps: nat
    // The configurations that the agent has tried to start, in order.
    ghost var starts: seq<Content>

    constructor (node: int, files: Files)
      ensures this.node == node && this.files == files && owned == null && trace == [files] && !unlucky && !stuck
      ensures lastApplied == VersionOf(ReadLastGood(files, node))
    {
      this.node, this.files, owned := node, files, null;
      lastApplied := VersionOf(ReadLastGood(files, node));
      trace, unlucky, stuck := [files], false, false;
      mishaps, starts := 0, [];
    }

    // A process with this configuration runs.
    ghost predicate Running(content: Content)
      reads this, owned
    {
      owned != null && !owned.exited && owned.content == content
    }

    ghost predicate Traced()
      reads this
    {
      |trace| > 0 && files == trace[|trace| - 1]
    }

    // A running process of the agent runs what the agent reports.
    ghost predicate Honest()
      reads this, owned
    {
      owned != null && !owned.exited ==> lastApplied == Some(HashOf(owned.content))
    }

    // What a heartbeat reports: the applied version if the process runs.
    method ReportedVersion() returns (version: Option<Version>)
      modifies this`owned
      ensures version == if old(owned) != null && !old(owned).exited then lastApplied else None
      ensures owned == if old(owned) != null && !old(owned).exited then old(owned) else null
    {
      var running := OwnedCoreRunning();
      version := if running then lastApplied else None;
    }

    method OwnedCoreRunning() returns (running: bool)
      modifies this`owned
      ensures running <==> old(owned) != null && !old(owned).exited
      ensures owned == if running then old(owned) else null
    {
      if owned != null && owned.exited {
        owned := null;
      }
      running := owned != null;
    }

    // ---- One step on the files ----

    // A write replaces the file or not; it may report a failure although it replaced the file.
    method Persist(next: Files) returns (ok: bool)
      modifies this`files, this`trace, this`mishaps
      ensures mishaps == if ok then old(mishaps) else old(mishaps) + 1
      ensures ok ==> files == next
      ensures files == next || files == old(files)
      ensures trace == old(trace) + [files]
    {
      ok := *;
      var replaced: bool := *;
      if !ok { mishaps := mishaps + 1; }
      if ok || replaced {
        files := next;
      }
      trace := trace + [files];
    }

    // ---- The process ----

    // Starting a process from a configuration succeeds or fails; a failed start leaves nothing running.
    method StartCore(content: Content) returns (core: Core?)
      modifies this`mishaps, this`starts
      ensures core != null ==> fresh(core) && core.content == content
      ensures mishaps == if core == null || core.exited then old(mishaps) + 1 else old(mishaps)
      ensures starts == old(starts) + [content]
    {
      core := null;
      starts := starts + [content];
      var started: bool := *;
      if started {
        core := new Core(content);
        MayExit(core);
      } else {
        mishaps := mishaps + 1;
      }
    }

    // A running process may exit at any time.
    method MayExit(core: Core)
      modifies core, this`mishaps
      ensures old(core.exited) ==> core.exited
      ensures mishaps == if core.exited && !old(core.exited) then old(mishaps) + 1 else old(mishaps)
    {
      if !core.exited {
        core.exited := *;
        if core.exited { mishaps := mishaps + 1; }
      }
    }

    // A step that may fail for a reason outside the agent.
    method MayFail() returns (ok: bool)
      modifies this`mishaps
      ensures mishaps == if ok then old(mishaps) else old(mishaps) + 1
    {
      ok := *;
      if !ok { mishaps := mishaps + 1; }
    }

    // A terminated process is cleared. A signal that fails leaves a running process running.
    method StopCore(core: Core) returns (ok: bool)
      modifies this`owned, this`unlucky, this`mishaps, core
      ensures mishaps >= old(mishaps) && (!ok ==> mishaps > old(mishaps))
      ensures ok ==> core.exited && owned != core
      ensures old(owned) != core ==> owned == old(owned)
      ensures owned == old(owned) || (owned == null && core.exited)
      ensures old(core.exited) ==> core.exited
      ensures unlucky <==> old(unlucky) || (!ok && !core.exited)
    {
      if core.exited {
        ok := MayFail();
        if ok && owned == core { owned := null; }
        return;
      }
      var signalled := MayFail();
      if !signalled {
        core.exited := *;
        if core.exited {
          ok := *;
          if ok && owned == core { owned := null; }
          return;
        }
        unlucky := true;
        return false;
      }
      // In time, or killed after the time limit.
      core.exited := true;
      if owned == core { owned := null; }
      ok := MayFail();
    }

    method StopOwnedCore() returns (ok: bool)
      modifies this`owned, this`unlucky, this`mishaps, owned
      ensures mishaps >= old(mishaps) && (!ok ==> mishaps > old(mishaps))
      ensures ok ==> owned == null
      ensures owned == old(owned) || owned == null
      ensures old(owned != null && owned.exited) ==> old(owned).exited
      ensures unlucky <==> old(unlucky) || (!ok && owned != null && !owned.exited)
    {
      if owned == null { return true; }
      var core := owned;
      ok := StopCore(core);
      var noticed: bool := *;
      if ok || (core.exited && noticed) {
        owned := null;
      }
    }

    method AdoptOwnedCore(core: Core) returns (ok: bool)
      modifies this`owned, this`mishaps, core
      ensures ok ==> owned == core
      ensures !ok ==> owned == old(owned) && core.exited
      ensures old(core.exited) ==> core.exited
      ensures mishaps == if core.exited && !old(core.exited) then old(mishaps) + 1 else old(mishaps)
    {
      if core.exited { return false; }
      MayExit(core);
      if core.exited { return false; }
      owned := core;
      MayExit(core);
      return true;
    }

    // ---- Replacing the configuration ----

    method RestorePrevious(previous: LastGood, ghost document: Document) returns (ok: bool)
      requires previous.Found? || previous == Absent
      requires previous.Found? ==> previous.content.rendered && previous.version == HashOf(previous.content)
      requires Either(files, node, previous, document)
      requires AllEither(trace, node, previous, document) && Traced()
      requires previous == Absent && files.state.None? ==> ReadLastGood(files, node) == Absent
      modifies this`files, this`trace, this`mishaps
      ensures mishaps == if ok then old(mishaps) else old(mishaps) + 1
      ensures AllEither(trace, node, previous, document) && Traced()
      ensures Either(files, node, previous, document)
      ensures ok ==> ReadLastGood(files, node) == previous
      ensures ok && previous.Found? ==> files.config == Some(previous.content)
    {
      if previous.Found? {
        var content, version := previous.content, previous.version;
        ok := Persist(files.(state := Some(StateFile(node, content, version, version))));
        if !ok { return; }
        ok := Persist(files.(config := Some(content)));
        if !ok { return; }
        ok := Persist(files.(version := Some(version)));
        if !ok { return; }
        ok := Persist(files.(node := Some(node)));
      } else {
        ok := Persist(files.(config := None));
        if !ok { return; }
        ok := Persist(files.(state := None));
        if !ok { return; }
        ok := Persist(files.(version := None));
        if !ok { return; }
        ok := Persist(files.(node := None));
      }
    }

    // The previous configuration is started from the config file.
    method RestartPrevious(previous: LastGood) returns (ok: bool)
      requires owned == null
      requires previous.Found? && files.config.Some? ==> files.config == Some(previous.content) || unlucky
      requires previous.Found? ==> previous.version == HashOf(previous.content)
      modifies this`owned, this`lastApplied, this`mishaps, this`starts
      ensures owned != null ==> fresh(owned) && previous.Found?
      ensures unlucky || Honest()
      ensures mishaps >= old(mishaps)
      ensures starts == if previous.Found? && files.config.Some? then old(starts) + [files.config.value] else old(starts)
      // The previous configuration runs again unless something fails.
      ensures previous.Found? && files.config == Some(previous.content) && mishaps == old(mishaps) ==>
        ok && Running(previous.content) && lastApplied == Some(previous.version)
    {
      if !previous.Found? { return true; }
      if files.config.None? { return false; }
      var core := StartCore(files.config.value);
      if core == null { return false; }
      ok := AdoptOwnedCore(core);
      if ok {
        lastApplied := Some(previous.version);
      }
    }

    method Rollback(core: Core, previous: LastGood, ghost document: Document)
      requires previous.Found? || previous == Absent
      requires previous.Found? ==> previous.content.rendered && previous.version == HashOf(previous.content)
      requires Either(files, node, previous, document)
      requires AllEither(trace, node, previous, document) && Traced()
      requires previous == Absent && files.state.None? ==> ReadLastGood(files, node) == Absent
      requires owned == core || (owned == null && core.exited)
      modifies this`files, this`trace, this`owned, this`lastApplied, this`unlucky, this`stuck, this`mishaps, this`starts, core
      ensures mishaps >= old(mishaps)
      // Unless it is stuck, it tries to start the previous configuration, and that runs unless something fails.
      ensures stuck || starts == if previous.Found? then old(starts) + [previous.content] else old(starts)
      ensures mishaps == old(mishaps) ==> stuck == old(stuck)
      ensures mishaps == old(mishaps) && previous.Found? ==> Running(previous.content) && lastApplied == Some(previous.version)
      ensures mishaps == old(mishaps) && previous == Absent ==> owned == null
      ensures mishaps == old(mishaps) ==> ReadLastGood(files, node) == previous
      ensures |starts| >= |old(starts)|
      ensures AllEither(trace, node, previous, document) && Traced()
      ensures Either(files, node, previous, document)
      ensures unlucky || Honest()
      ensures owned == null || owned == core || fresh(owned)
      ensures stuck || ReadLastGood(files, node) == previous
      ensures old(unlucky) ==> unlucky
    {
      var ok := StopCore(core);
      if !ok { stuck := true; return; }
      ok := RestorePrevious(previous, document);
      if !ok { stuck, unlucky := true, true; return; }
      ok := RestartPrevious(previous);
    }

    method ApplyConfig(document: Document) returns (ok: bool)
      requires trace == [files] && !stuck
      modifies this`files, this`trace, this`owned, this`lastApplied, this`unlucky, this`stuck, this`mishaps, this`starts, owned
      ensures mishaps >= old(mishaps)
      // A legal configuration is applied and runs unless something fails.
      ensures mishaps == old(mishaps) && ValidDocument(document, node) && ReadLastGood(old(files), node) != Broken ==>
        ok && Running(document.content)
      // When the new configuration was tried and failed, the old one is tried again, and runs unless more than one thing
      // has failed.
      ensures ok ==> starts == old(starts) + [document.content]
      ensures !ok && !stuck && !unlucky && starts != old(starts) ==>
        starts == old(starts) + [document.content] + PreviousOf(ReadLastGood(old(files), node))
      ensures !ok && mishaps == old(mishaps) + 1 && starts != old(starts) && ReadLastGood(old(files), node).Found? ==>
        && Running(ReadLastGood(old(files), node).content) && lastApplied == Some(ReadLastGood(old(files), node).version)
        && ReadLastGood(files, node) == ReadLastGood(old(files), node)
      // At every step the files read as the old configuration or as the new one.
      ensures AllEither(trace, node, ReadLastGood(old(files), node), document)
      ensures Either(files, node, ReadLastGood(old(files), node), document) && Traced()
      // A success installs the new configuration, and an undisturbed failure leaves the old one.
      ensures ok ==>
        && ValidDocument(document, node) && ReadLastGood(files, node) == Found(document.content, document.version)
        && files.config == Some(document.content) && lastApplied == Some(document.version)
        && owned != null && owned.content == document.content
      ensures !ok && !stuck && !unlucky ==> ReadLastGood(files, node) == ReadLastGood(old(files), node)
      // A success makes up for what went wrong before.
      ensures ok ==> !unlucky && Honest()
      ensures !ok && old(unlucky) ==> unlucky
      ensures old(unlucky || Honest()) ==> unlucky || Honest()
      ensures owned == null || owned == old(owned) || fresh(owned)
    {
      ok := false;
      if !ValidDocument(document, node) { return; }
      var binaryAvailable := MayFail();
      if !binaryAvailable { return; }
      var previous := ReadLastGood(files, node);
      if previous == Broken { return; }
      var prepared := MayFail();
      if !prepared { return; }
      var stopped := StopOwnedCore();
      if !stopped { return; }
      ok := Replace(document, previous);
    }

    // With the old process stopped: the new one is started and its files are written, or the old ones are restored and the
    // old configuration is started again.
    method Replace(document: Document, previous: LastGood) returns (ok: bool)
      requires ValidDocument(document, node) && ReadLastGood(files, node) == previous && previous != Broken
      requires trace == [files] && owned == null && !stuck
      modifies this`files, this`trace, this`owned, this`lastApplied, this`unlucky, this`stuck, this`mishaps, this`starts
      ensures mishaps >= old(mishaps) && (mishaps == old(mishaps) ==> ok && Running(document.content))
      ensures ok ==> starts == old(starts) + [document.content]
      ensures !ok && !stuck && !unlucky ==> starts == old(starts) + [document.content] + PreviousOf(previous)
      ensures !ok && mishaps == old(mishaps) + 1 && previous.Found? ==> Running(previous.content) && lastApplied == Some(previous.version)
      ensures !ok && mishaps == old(mishaps) + 1 ==> ReadLastGood(files, node) == previous
      ensures AllEither(trace, node, previous, document) && Either(files, node, previous, document) && Traced()
      ensures ok ==>
        && ReadLastGood(files, node) == Found(document.content, document.version)
        && files.config == Some(document.content) && lastApplied == Some(document.version)
        && owned != null && owned.content == document.content
      ensures !ok && !stuck && !unlucky ==> ReadLastGood(files, node) == previous
      ensures ok ==> !unlucky && Honest()
      ensures !ok && old(unlucky) ==> unlucky
      ensures unlucky || Honest()
      ensures owned == null || fresh(owned)
    {
      var core := StartCore(document.content);
      if core == null {
        StartOld(previous, document);
        return false;
      }
      var adopted := AdoptOwnedCore(core);
      if !adopted { Rollback(core, previous, document); return false; }
      ok := WriteNewFiles(document, previous);
      if !ok { Rollback(core, previous, document); return; }
      lastApplied := Some(document.version);
      unlucky := false;
    }

    // The new process did not start: the old files are written again, and the old configuration is started.
    method StartOld(previous: LastGood, ghost document: Document)
      requires previous.Found? || previous == Absent
      requires previous.Found? ==> previous.content.rendered && previous.version == HashOf(previous.content)
      requires ReadLastGood(files, node) == previous && trace == [files] && owned == null
      modifies this`files, this`trace, this`owned, this`lastApplied, this`unlucky, this`mishaps, this`starts
      ensures AllEither(trace, node, previous, document) && Either(files, node, previous, document) && Traced()
      ensures mishaps >= old(mishaps) && (old(unlucky) ==> unlucky) && (unlucky || Honest())
      ensures unlucky || starts == old(starts) + PreviousOf(previous)
      ensures unlucky || ReadLastGood(files, node) == previous
      ensures mishaps == old(mishaps) ==> ReadLastGood(files, node) == previous
      ensures mishaps == old(mishaps) && previous.Found? ==> Running(previous.content) && lastApplied == Some(previous.version)
      ensures owned == null || fresh(owned)
    {
      var restored := RestorePrevious(previous, document);
      if !restored { unlucky := true; }
      var restarted := RestartPrevious(previous);
    }

    method WriteNewFiles(document: Document, ghost previous: LastGood) returns (ok: bool)
      requires ValidDocument(document, node) && AllEither(trace, node, previous, document) && Traced()
      requires ReadLastGood(files, node) == previous
      modifies this`files, this`trace, this`mishaps
      ensures mishaps == if ok then old(mishaps) else old(mishaps) + 1
      ensures AllEither(trace, node, previous, document) && Either(files, node, previous, document) && Traced()
      ensures files.state.None? ==> ReadLastGood(files, node) == previous
      ensures ok ==> ReadLastGood(files, node) == Found(document.content, document.version) && files.config == Some(document.content)
    {
      ok := Persist(files.(state := Some(StateFile(node, document.content, document.version, document.version))));
      if !ok { return; }
      ok := Persist(files.(config := Some(document.content)));
      if !ok { return; }
      ok := Persist(files.(version := Some(document.version)));
      if !ok { return; }
      ok := Persist(files.(node := Some(node)));
    }

    // The stored configuration is started again; what the files say does not change at any step.
    method EnsureLastGoodRunning() returns (ok: bool)
      requires trace == [files]
      modifies this`files, this`trace, this`owned, this`lastApplied, this`mishaps, this`starts
      ensures mishaps >= old(mishaps)
      // A stored configuration runs unless something fails.
      ensures mishaps == old(mishaps) && ReadLastGood(old(files), node).Found? ==>
        ok && owned != null && !owned.exited && (owned == old(owned) || owned.content == ReadLastGood(old(files), node).content)
      ensures forall i :: 0 <= i < |trace| ==> ReadLastGood(trace[i], node) == ReadLastGood(old(files), node)
      ensures ReadLastGood(files, node) == ReadLastGood(old(files), node) && Traced()
      ensures old(Honest()) ==> Honest()
      ensures ok && owned != old(owned) ==> ReadLastGood(files, node).Found? && lastApplied == Some(ReadLastGood(files, node).version)
      ensures owned == null || owned == old(owned) || fresh(owned)
    {
      var running := OwnedCoreRunning();
      if running { return true; }
      var binaryAvailable := MayFail();
      if !binaryAvailable { return false; }
      var last := ReadLastGood(files, node);
      if !last.Found? { return false; }
      var checked := MayFail();
      if !checked { return false; }
      ok := Persist(files.(config := Some(last.content)));
      if !ok { return false; }
      var core := StartCore(last.content);
      if core == null { return false; }
      ok := AdoptOwnedCore(core);
      if !ok { return false; }
      lastApplied := Some(last.version);
    }

    // ---- The life of an agent ----

    // One poll of the panel; None when the panel gives no configuration.
    method Run(fetched: Option<Document>)
      requires trace == [files] && !stuck
      modifies this`files, this`trace, this`owned, this`lastApplied, this`unlucky, this`stuck, this`mishaps, this`starts, owned
      // Unless something fails, a process runs after the poll: a new legal configuration, or else what is stored.
      ensures mishaps >= old(mishaps)
      ensures mishaps == old(mishaps) && ReadLastGood(old(files), node).Found? && (fetched.Some? ==> ValidDocument(fetched.value, node)) ==>
        owned != null && !owned.exited
      ensures mishaps == old(mishaps) && fetched.Some? && ValidDocument(fetched.value, node)
              && old(lastApplied) != Some(fetched.value.version) && ReadLastGood(old(files), node) != Broken ==>
          Running(fetched.value.content) && ReadLastGood(files, node) == Found(fetched.value.content, fetched.value.version)
      ensures if fetched.Some? then AllEither(trace, node, ReadLastGood(old(files), node), fetched.value)
              else forall i :: 0 <= i < |trace| ==> ReadLastGood(trace[i], node) == ReadLastGood(old(files), node)
      ensures Traced()
      ensures old(unlucky || Honest()) ==> unlucky || Honest()
      ensures owned == null || owned == old(owned) || fresh(owned)
    {
      if fetched.None? {
        var ensured := EnsureLastGoodRunning();
        return;
      }
      var running := OwnedCoreRunning();
      if lastApplied == Some(fetched.value.version) {
        if !running {
          var ensured := EnsureLastGoodRunning();
        }
        return;
      }
      var applied := ApplyConfig(fetched.value);
    }

    // The apply or rollback phase of a deployment.
    method Deploy(document: Document)
      requires trace == [files] && !stuck
      modifies this`files, this`trace, this`owned, this`lastApplied, this`unlucky, this`stuck, this`mishaps, this`starts, owned
      // Unless something fails, the deployed configuration runs.
      ensures mishaps >= old(mishaps)
      ensures mishaps == old(mishaps) && ValidDocument(document, node) && ReadLastGood(old(files), node) != Broken && old(Honest()) ==>
        Running(document.content) && lastApplied == Some(document.version)
      ensures AllEither(trace, node, ReadLastGood(old(files), node), document)
      ensures Traced()
      ensures old(unlucky || Honest()) ==> unlucky || Honest()
      ensures owned == null || owned == old(owned) || fresh(owned)
    {
      var running := OwnedCoreRunning();
      if lastApplied != Some(document.version) || !running {
        var applied := ApplyConfig(document);
      }
    }

    // The agent dies with the files of any step of its last operation, and starts again without its process.
    method Crash()
      requires Traced()
      modifies this`files, this`owned, this`lastApplied, this`unlucky
      ensures files in trace && owned == null && lastApplied == VersionOf(ReadLastGood(files, node))
      ensures !unlucky && Honest()
    {
      var k: int := *;
      if 0 <= k < |trace| {
        files := trace[k];
      }
      owned := null;
      lastApplied := VersionOf(ReadLastGood(files, node));
      unlucky := false;
    }

    // Any sequence of polls and deployments, with crashes of the agent and of its process in between.
    method Live(documents: seq<Option<Document>>)
      requires trace == [files] && !stuck && Honest()
      modifies this`files, this`trace, this`owned, this`lastApplied, this`unlucky, this`stuck, this`mishaps, this`starts, owned
      ensures OneOf(ReadLastGood(files, node), node, ReadLastGood(old(files), node), documents)
      ensures unlucky || Honest()
    {
      ghost var first := ReadLastGood(files, node);
      var i := 0;
      while i < |documents|
        invariant i <= |documents| && trace == [files] && !stuck
        invariant owned == null || owned == old(owned) || fresh(owned)
        invariant OneOf(ReadLastGood(files, node), node, first, documents[..i])
        invariant unlucky || Honest()
      {
        ghost var now := ReadLastGood(files, node);
        var polled: bool := *;
        if polled || documents[i].None? {
          Run(documents[i]);
        } else {
          Deploy(documents[i].value);
        }
        OneMore(trace, node, now, first, documents, i);
        var crashed: bool := *;
        if crashed {
          Crash();
        }
        if owned != null && !owned.exited {
          owned.exited := *;
        }
        trace, stuck := [files], false;
        i := i + 1;
      }
      assert documents[..i] == documents;
    }
  }

  // The first configuration, or one of the legal documents.
  ghost predicate OneOf(last: LastGood, node: int, first: LastGood, documents: seq<Option<Document>>) {
    || last == first
    || exists d :: Some(d) in documents && ValidDocument(d, node) && last == Found(d.content, d.version)
  }

  lemma OneMore(trace: seq<Files>, node: int, now: LastGood, first: LastGood, documents: seq<Option<Document>>, i: nat)
    requires i < |documents| && OneOf(now, node, first, documents[..i])
    requires if documents[i].Some? then AllEither(trace, node, now, documents[i].value)
             else forall k :: 0 <= k < |trace| ==> ReadLastGood(trace[k], node) == now
    ensures forall f :: f in trace ==> OneOf(ReadLastGood(f, node), node, first, documents[..i + 1])
  {
    assert documents[..i + 1] == documents[..i] + [documents[i]];
    forall f | f in trace ensures OneOf(ReadLastGood(f, node), node, first, documents[..i + 1]) {
      var k :| 0 <= k < |trace| && trace[k] == f;
      assert documents[i].Some? ==> Either(f, node, now, documents[i].value);
    }
  }

  ghost function PreviousOf(last: LastGood): seq<Content> {
    if last.Found? then [last.content] else []
  }

  function VersionOf(last: LastGood): Option<Version> {
    if last.Found? then Some(last.version) else None
  }
}
