/**
 * The argument lists the nerdctl image processor hands to `nerdctl` (through
 * `runImagesCommand`) and to `trivy` (through `runTrivyCommand`), and the namespace
 * prefix `runImagesCommand` puts in front of every nerdctl invocation.
 *
 * Each builder comes with a decoder that recovers what the builder was given, so the
 * lists are shown to be unambiguous: the decoder inverts the builder, and every list the
 * decoder accepts is one the builder produces.
 */
module ImageCommands {
  import opened Wrappers

  /** The BuildKit daemon `buildImage` points nerdctl at. */
  const BuildkitHost: string := "unix:///run/buildkit/buildkitd.sock"

  /** The Go template `getImages` asks for: one JSON object per image, one per line. */
  const JsonFormat: string := "{{json .}}"

  /** The arguments of `getNamespaces`, run without the namespace prefix. */
  const NamespaceListArgs: seq<string> := ["namespace", "list", "--quiet"]

  /** The image operations that go through `runImagesCommand`, by the values they put on the command line. */
  datatype ImageCommand =
    | Build(dockerfile: string, tag: string, context: string)
    | Remove(imageID: string)
    | Pull(reference: string)
    | Push(reference: string)
    | ListImages

  /**
   * `buildImage` (with `dockerfile` the joined path), `deleteImage`, `pullImage`, `pushImage`
   * and `getImages`: the subcommand first, then its fixed flags and the caller's values.
   */
  function CommandArgs(command: ImageCommand): seq<string> {
    match command
    case Build(dockerfile, tag, context) =>
      ["build", "--buildkit-host", BuildkitHost, "--file", dockerfile, "--tag", tag, context]
    case Remove(imageID) => ["rmi", imageID]
    case Pull(reference) => ["pull", reference, "--debug"]
    case Push(reference) => ["push", reference]
    case ListImages => ["images", "--format", JsonFormat]
  }

  /** `buildImage(dirPart, filePart, taggedImageName)`, with `path.join` as the parameter `join`. */
  function BuildCommand(dirPart: string, filePart: string, taggedImageName: string,
                        join: (string, string) -> string): ImageCommand {
    Build(join(dirPart, filePart), taggedImageName, dirPart)
  }

  /** The `sendNotifications` argument each operation passes: only `getImages` turns notifications off. */
  predicate SendsNotifications(command: ImageCommand) {
    !command.ListImages?
  }

  /** Reads an argument list back as the image command that produces it, if there is one. */
  function ParseCommand(args: seq<string>): (command: Option<ImageCommand>)
    ensures command.Some? ==> |args| >= 2
  {
    if |args| == 8 && args[0] == "build" && args[1] == "--buildkit-host" && args[2] == BuildkitHost
       && args[3] == "--file" && args[5] == "--tag" then
      Some(Build(args[4], args[6], args[7]))
    else if |args| == 2 && args[0] == "rmi" then Some(Remove(args[1]))
    else if |args| == 3 && args[0] == "pull" && args[2] == "--debug" then Some(Pull(args[1]))
    else if |args| == 2 && args[0] == "push" then Some(Push(args[1]))
    else if args == ["images", "--format", JsonFormat] then Some(ListImages)
    else None
  }

  /** Every command's argument list reads back as that command. */
  lemma ParseCommandArgs(command: ImageCommand)
    ensures ParseCommand(CommandArgs(command)) == Some(command)
  {
  }

  /** Every argument list that reads as a command is exactly that command's list. */
  lemma CommandArgsOfParsed(args: seq<string>)
    ensures ParseCommand(args).Some? ==> CommandArgs(ParseCommand(args).value) == args
  {
  }

  /** Different commands never share an argument list. */
  lemma CommandArgsInjective(c1: ImageCommand, c2: ImageCommand)
    ensures CommandArgs(c1) == CommandArgs(c2) ==> c1 == c2
  {
    ParseCommandArgs(c1);
    ParseCommandArgs(c2);
  }

  /** The list `buildImage` passes carries the joined Dockerfile path, the tag and the build context. */
  lemma BuildCommandArgs(dirPart: string, filePart: string, taggedImageName: string, join: (string, string) -> string)
    ensures var args := CommandArgs(BuildCommand(dirPart, filePart, taggedImageName, join));
      |args| == 8 && args[0] == "build" && args[2] == BuildkitHost
      && args[4] == join(dirPart, filePart) && args[6] == taggedImageName && args[7] == dirPart
  {
  }

  /** `args[0]` as `runImagesCommand` reads it: undefined for an empty list. */
  function SubcommandName(args: seq<string>): (name: Option<string>)
    ensures name.Some? <==> args != []
  {
    if args == [] then None else Some(args[0])
  }

  /** The subcommand reported for an image command is the verb its list starts with. */
  lemma SubcommandOfCommand(command: ImageCommand)
    ensures SubcommandName(CommandArgs(command)).Some?
    ensures SubcommandName(CommandArgs(command)).value ==
      match command
      case Build(_, _, _) => "build"
      case Remove(_) => "rmi"
      case Pull(_) => "pull"
      case Push(_) => "push"
      case ListImages => "images"
  {
  }

  /** `['--namespace', currentNamespace].concat(args)`. */
  function NamespacedArgs(namespace: string, args: seq<string>): seq<string> {
    ["--namespace", namespace] + args
  }

  /** Reads a namespaced argument list back into the namespace and the original arguments. */
  function SplitNamespace(namespacedArgs: seq<string>): Option<(string, seq<string>)> {
    if |namespacedArgs| >= 2 && namespacedArgs[0] == "--namespace" then
      Some((namespacedArgs[1], namespacedArgs[2..]))
    else None
  }

  /** The namespace flag takes the first two tokens and the original arguments follow unchanged. */
  lemma {:induction false} SplitNamespacedArgs(namespace: string, args: seq<string>)
    ensures SplitNamespace(NamespacedArgs(namespace, args)) == Some((namespace, args))
    ensures |NamespacedArgs(namespace, args)| == |args| + 2
  {
    assert NamespacedArgs(namespace, args)[2..] == args;
  }

  /** Every list `SplitNamespace` accepts is a namespaced list. */
  lemma NamespacedArgsOfSplit(namespacedArgs: seq<string>)
    ensures SplitNamespace(namespacedArgs).Some? ==>
      var (namespace, args) := SplitNamespace(namespacedArgs).value;
      NamespacedArgs(namespace, args) == namespacedArgs
  {
    if SplitNamespace(namespacedArgs).Some? {
      assert namespacedArgs == namespacedArgs[..2] + namespacedArgs[2..];
    }
  }

  /** `scanImage`: the arguments for trivy, quiet, JSON report, the image last. */
  function ScanImageArgs(taggedImageName: string): seq<string> {
    ["--quiet", "image", "--format", "json", taggedImageName]
  }

  /** The image a trivy argument list scans, when it is one `scanImage` builds. */
  function ScannedImage(args: seq<string>): Option<string> {
    if |args| == 5 && args[..4] == ["--quiet", "image", "--format", "json"] then Some(args[4]) else None
  }

  lemma ScannedImageOfScan(taggedImageName: string)
    ensures ScannedImage(ScanImageArgs(taggedImageName)) == Some(taggedImageName)
  {
  }

  lemma ScanArgsOfScanned(args: seq<string>)
    ensures ScannedImage(args).Some? ==> ScanImageArgs(ScannedImage(args).value) == args
  {
    if ScannedImage(args).Some? {
      assert args == args[..4] + [args[4]];
    }
  }

  /** No image command is mistaken for the namespace listing, and the trivy list is no nerdctl command. */
  lemma CommandsDistinct(command: ImageCommand, taggedImageName: string)
    ensures CommandArgs(command) != NamespaceListArgs
    ensures ParseCommand(ScanImageArgs(taggedImageName)) == None
    ensures ParseCommand(NamespaceListArgs) == None
  {
  }
}
