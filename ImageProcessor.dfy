/**
 * The state `NerdctlImageProcessor` keeps and changes: the readiness flag the
 * `k8s-check-state` handler maintains, and the nerdctl invocations the image operations
 * issue through `runImagesCommand`.
 */
module ImageProcessor {
  import opened Wrappers
  import opened ImageCommands

  /** The Kubernetes backend state an event reports; only STARTED is told apart here. */
  datatype BackendState = Started | NotStarted

  /** The fields the readiness handler reads and writes, and the number of watch-status updates it caused. */
  datatype Readiness = Readiness(active: bool, isK8sReady: bool, watchUpdates: nat)

  /**
   * One `k8s-check-state` event: an inactive processor ignores it; an active one records
   * whether the backend has started and updates its watch status once.
   */
  function OnCheckState(r: Readiness, state: BackendState): Readiness {
    if !r.active then r else Readiness(r.active, state == Started, r.watchUpdates + 1)
  }

  /** A run of events, handled in order. */
  function Replay(r: Readiness, states: seq<BackendState>): Readiness {
    if states == [] then r else OnCheckState(Replay(r, states[..|states| - 1]), states[|states| - 1])
  }

  /** An inactive processor is left exactly as it was by any run of events. */
  lemma {:induction false} ReplayInactive(r: Readiness, states: seq<BackendState>)
    requires !r.active
    ensures Replay(r, states) == r
  {
    if states != [] {
      ReplayInactive(r, states[..|states| - 1]);
    }
  }

  /**
   * An active processor updates its watch status once per event, and afterwards is ready
   * exactly when the last event reported STARTED.
   */
  lemma {:induction false} ReplayActive(r: Readiness, states: seq<BackendState>)
    requires r.active
    ensures Replay(r, states).active
    ensures Replay(r, states).watchUpdates == r.watchUpdates + |states|
    ensures Replay(r, states).isK8sReady == if states == [] then r.isK8sReady else states[|states| - 1] == Started
  {
    if states != [] {
      ReplayActive(r, states[..|states| - 1]);
    }
  }

  /** A nerdctl child process as `runImagesCommand` starts it. */
  datatype Spawn = Spawn(args: seq<string>, subcommand: Option<string>, sendNotifications: bool)

  /** What `runImagesCommand(args, sendNotifications)` starts in namespace `namespace`. */
  function ImagesCommand(namespace: string, args: seq<string>, sendNotifications: bool): (spawn: Spawn)
    ensures SplitNamespace(spawn.args) == Some((namespace, args))
    ensures spawn.subcommand == (if args == [] then None else Some(args[0]))
    ensures spawn.sendNotifications == sendNotifications
  {
    SplitNamespacedArgs(namespace, args);
    Spawn(NamespacedArgs(namespace, args), SubcommandName(args), sendNotifications)
  }

  /** The invocation an image operation issues, decoded back into the namespace and the command. */
  lemma ImageOperationDecodes(namespace: string, command: ImageCommand)
    ensures var spawn := ImagesCommand(namespace, CommandArgs(command), SendsNotifications(command));
      && SplitNamespace(spawn.args).Some?
      && SplitNamespace(spawn.args).value.0 == namespace
      && ParseCommand(SplitNamespace(spawn.args).value.1) == Some(command)
      && spawn.sendNotifications == !command.ListImages?
  {
    ParseCommandArgs(command);
  }

  class NerdctlImageProcessor {
    var active: bool
    var isK8sReady: bool
    var currentNamespace: string
    /** How many times `updateWatchStatus` has been called. */
    var watchUpdates: nat
    /** The nerdctl processes started so far, oldest first. */
    var spawned: seq<Spawn>

    /** The readiness fields as a value. */
    function ReadinessState(): Readiness
      reads this
    {
      Readiness(active, isK8sReady, watchUpdates)
    }

    /** The base class sets the starting flags and namespace; nothing has run yet. */
    constructor(active: bool, isK8sReady: bool, currentNamespace: string)
      ensures this.active == active && this.isK8sReady == isK8sReady && this.currentNamespace == currentNamespace
      ensures watchUpdates == 0 && spawned == []
    {
      this.active := active;
      this.isK8sReady := isK8sReady;
      this.currentNamespace := currentNamespace;
      watchUpdates := 0;
      spawned := [];
    }

    /** `updateWatchStatus`, counted. */
    method UpdateWatchStatus()
      modifies this
      ensures watchUpdates == old(watchUpdates) + 1
      ensures active == old(active) && isK8sReady == old(isK8sReady)
      ensures currentNamespace == old(currentNamespace) && spawned == old(spawned)
    {
      watchUpdates := watchUpdates + 1;
    }

    /** The `k8s-check-state` handler the constructor installs. */
    method OnK8sCheckState(state: BackendState)
      modifies this
      ensures ReadinessState() == OnCheckState(old(ReadinessState()), state)
      ensures currentNamespace == old(currentNamespace) && spawned == old(spawned)
    {
      if !active {
        return;
      }
      isK8sReady := state == Started;
      UpdateWatchStatus();
    }

    /** `runImagesCommand`: starts nerdctl in the current namespace; nothing else changes. */
    method RunImagesCommand(args: seq<string>, sendNotifications: bool)
      modifies this
      ensures spawned == old(spawned) + [ImagesCommand(currentNamespace, args, sendNotifications)]
      ensures ReadinessState() == old(ReadinessState()) && currentNamespace == old(currentNamespace)
    {
      var subcommandName := SubcommandName(args);
      var namespacedArgs := NamespacedArgs(currentNamespace, args);
      spawned := spawned + [Spawn(namespacedArgs, subcommandName, sendNotifications)];
    }

    /** Runs one of the image operations with the notification setting it uses. */
    method RunImageCommand(command: ImageCommand)
      modifies this
      ensures spawned == old(spawned) + [ImagesCommand(currentNamespace, CommandArgs(command), SendsNotifications(command))]
      ensures ReadinessState() == old(ReadinessState()) && currentNamespace == old(currentNamespace)
    {
      RunImagesCommand(CommandArgs(command), SendsNotifications(command));
    }

    /** `buildImage`, with `path.join` as the parameter `join`. */
    method BuildImage(dirPart: string, filePart: string, taggedImageName: string, join: (string, string) -> string)
      modifies this
      ensures spawned == old(spawned) +
        [ImagesCommand(currentNamespace, CommandArgs(BuildCommand(dirPart, filePart, taggedImageName, join)), true)]
      ensures ReadinessState() == old(ReadinessState()) && currentNamespace == old(currentNamespace)
    {
      RunImageCommand(BuildCommand(dirPart, filePart, taggedImageName, join));
    }

    method DeleteImage(imageID: string)
      modifies this
      ensures spawned == old(spawned) + [ImagesCommand(currentNamespace, ["rmi", imageID], true)]
      ensures ReadinessState() == old(ReadinessState()) && currentNamespace == old(currentNamespace)
    {
      RunImageCommand(Remove(imageID));
    }

    method PullImage(taggedImageName: string)
      modifies this
      ensures spawned == old(spawned) + [ImagesCommand(currentNamespace, ["pull", taggedImageName, "--debug"], true)]
      ensures ReadinessState() == old(ReadinessState()) && currentNamespace == old(currentNamespace)
    {
      RunImageCommand(Pull(taggedImageName));
    }

    method PushImage(taggedImageName: string)
      modifies this
      ensures spawned == old(spawned) + [ImagesCommand(currentNamespace, ["push", taggedImageName], true)]
      ensures ReadinessState() == old(ReadinessState()) && currentNamespace == old(currentNamespace)
    {
      RunImageCommand(Push(taggedImageName));
    }

    method GetImages()
      modifies this
      ensures spawned == old(spawned) + [ImagesCommand(currentNamespace, ["images", "--format", JsonFormat], false)]
      ensures ReadinessState() == old(ReadinessState()) && currentNamespace == old(currentNamespace)
    {
      RunImageCommand(ListImages);
    }
  }

  /** Handling a run of events on the object agrees with replaying them on its readiness value. */
  method HandleEvents(processor: NerdctlImageProcessor, states: seq<BackendState>)
    modifies processor
    ensures processor.ReadinessState() == Replay(old(processor.ReadinessState()), states)
    ensures processor.currentNamespace == old(processor.currentNamespace) && processor.spawned == old(processor.spawned)
  {
    for i := 0 to |states|
      invariant processor.ReadinessState() == Replay(old(processor.ReadinessState()), states[..i])
      invariant processor.currentNamespace == old(processor.currentNamespace) && processor.spawned == old(processor.spawned)
    {
      assert states[..i + 1][..i] == states[..i];
      processor.OnK8sCheckState(states[i]);
    }
    assert states[..|states|] == states;
  }
}
