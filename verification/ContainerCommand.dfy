/** composer/src/composer.rs: what a created container runs. */
module ContainerCommands {
  import opened Wrappers

  type Args = seq<string>

  datatype Binary = Binary(path: string, arguments: Args, natsArg: Option<string>)
  {
    function SetupNats(network: string): Binary {
      if natsArg.None? then this
      else if natsArg.value == "" then this.(natsArg := None)
      else Binary(path, arguments + [natsArg.value, "nats." + network + ":4222"], None)
    }

    function Commands(): Args {
      [path] + arguments
    }
  }

  datatype ContainerSpec = ContainerSpec(
    image: Option<string>,
    command: Option<string>,
    entrypoint: Option<Args>,
    arguments: Option<Args>,
    binary: Option<Binary>,
    init: Option<bool>)
  {
    function WithArgs(args: Args): ContainerSpec {
      this.(arguments := Some(Arguments() + args))
    }

    function Arguments(): Args {
      if arguments.Some? then arguments.value else []
    }

    /** What stands before the arguments: the binary and its own arguments, else the command. */
    function CommandLine(network: string): Args {
      if binary.Some? then binary.value.SetupNats(network).Commands()
      else if command.Some? then [command.value]
      else []
    }

    function Commands(network: string): Args {
      CommandLine(network) + Arguments()
    }

    /** Whether the spec names something to run. */
    function Command(network: string): Option<string> {
      if binary.Some? then Some(binary.value.SetupNats(network).path) else command
    }

    function Entrypoint(defaultImage: Option<string>): Args {
      if entrypoint.Some? then entrypoint.value
      else if binary.Some? && defaultImage.Some? && (init.None? || init.value) then ["/sbin/tini", "--"]
      else []
    }
  }

  /** The part of an image's configuration that is merged in. */
  datatype ImageConfig = ImageConfig(cmd: Option<Args>, entrypoint: Option<Args>)

  function OrEmpty(a: Option<Args>): Args {
    if a.Some? then a.value else []
  }

  /** The image a container is made from: its own, else the base image. */
  function ImageOf(spec: ContainerSpec, baseImage: Option<string>): Option<string> {
    if spec.image.Some? then spec.image else baseImage
  }

  /** The closed form of the merge: the whole command line the container runs. */
  function Runs(e: Args, imageE: Args, imageC: Args, c: Args, hasCommand: bool): Args {
    e + (if e == [] || !hasCommand then imageE else []) + (if hasCommand then [] else imageC) + c
  }

  /** The whole command line of a container, from its image's configuration. */
  function CommandLineOf(spec: ContainerSpec, name: string, baseImage: Option<string>, config: ImageConfig): Args {
    Runs(spec.Entrypoint(baseImage), OrEmpty(config.entrypoint), OrEmpty(config.cmd), spec.Commands(name),
         spec.Command(name).Some?)
  }

  /** The merge in `create_container`, assignment by assignment. */
  method Merge(
      spec: ContainerSpec, name: string, networkId: string, baseImage: Option<string>, inspect: string -> ImageConfig)
    returns (entrypoint: Args, cmd: Args)
    ensures var image := ImageOf(spec, baseImage);
            var config := if image.Some? then inspect(image.value) else ImageConfig(None, None);
            var e := spec.Entrypoint(baseImage);
            && entrypoint == (if e != [] then e else OrEmpty(config.entrypoint))
            && entrypoint + cmd == CommandLineOf(spec, name, baseImage, config)
  {
    cmd := spec.Commands(name);
    var image := ImageOf(spec, baseImage);
    entrypoint := spec.Entrypoint(baseImage);
    ghost var e, c := entrypoint, cmd;
    MergeIsRuns(e, [], [], c, spec.Command(networkId).Some?);
    if image.Some? {
      var config := inspect(image.value);
      var imgCmd := OrEmpty(config.cmd);
      if imgCmd != [] && spec.Command(networkId).None? {
        imgCmd := imgCmd + cmd;
        cmd := imgCmd;
      }
      ghost var imageC := if spec.Command(networkId).Some? then [] else OrEmpty(config.cmd);
      assert cmd == imageC + c;
      MergeIsRuns(e, OrEmpty(config.entrypoint), OrEmpty(config.cmd), c, spec.Command(networkId).Some?);
      var imgEntrypoint := OrEmpty(config.entrypoint);
      if imgEntrypoint != [] && entrypoint == [] {
        entrypoint := imgEntrypoint;
      } else if entrypoint != [] && spec.Command(networkId).None? {
        imgEntrypoint := imgEntrypoint + cmd;
        cmd := imgEntrypoint;
      }
    }
  }

  /** Where the three outcomes of the merge put the pieces. */
  lemma MergeIsRuns(e: Args, imageE: Args, imageC: Args, c: Args, hasCommand: bool)
    ensures var cmd := (if hasCommand then [] else imageC) + c;
            Runs(e, imageE, imageC, c, hasCommand)
            == if e == [] then imageE + cmd else if hasCommand then e + cmd else e + (imageE + cmd)
  {
  }

  /** Adding arguments again and again. */
  function WithAll(spec: ContainerSpec, calls: seq<Args>): ContainerSpec
    decreases |calls|
  {
    if calls == [] then spec else WithAll(spec.WithArgs(calls[0]), calls[1..])
  }

  function Flat(calls: seq<Args>): Args {
    if calls == [] then [] else calls[0] + Flat(calls[1..])
  }

  lemma {:induction false} ArgumentsAccumulate(spec: ContainerSpec, calls: seq<Args>)
    ensures WithAll(spec, calls).Arguments() == spec.Arguments() + Flat(calls)
    ensures WithAll(spec, calls) == spec.(arguments := WithAll(spec, calls).arguments)
    decreases |calls|
  {
    if calls != [] {
      ArgumentsAccumulate(spec.WithArgs(calls[0]), calls[1..]);
    }
  }

  /** Whatever the image and the rest of the spec say, the user's arguments end the command line, in the order given. */
  lemma ArgumentsComeLast(
      spec: ContainerSpec, calls: seq<Args>, name: string, e: Args, imageE: Args, imageC: Args, hasCommand: bool)
    requires spec.arguments.None?
    ensures var full := WithAll(spec, calls);
            Runs(e, imageE, imageC, full.Commands(name), hasCommand)
            == Runs(e, imageE, imageC, full.CommandLine(name), hasCommand) + Flat(calls)
  {
    ArgumentsAccumulate(spec, calls);
    assert [] + Flat(calls) == Flat(calls);
  }

  /** What a spec names to run stands in front of its own commands. */
  lemma CommandComesFirst(spec: ContainerSpec, network: string)
    ensures spec.Command(network).Some? ==>
              spec.Commands(network) != [] && spec.Commands(network)[0] == spec.Command(network).value
    ensures spec.Command(network).None? ==> spec.binary.None? && spec.command.None?
  {
  }

  lemma BinaryCommands(b: Binary, network: string)
    ensures b.SetupNats(network).Commands()
            == [b.path] + b.arguments
               + if b.natsArg.Some? && b.natsArg.value != "" then [b.natsArg.value, "nats." + network + ":4222"] else []
  {
  }

  /**
   * A binary runs with its own arguments, then the address of the nats server if it takes one, then the user's
   * arguments. It runs under the entrypoint given; with none given under tini, if there is a base image and
   * this is not switched off; else under the image's entrypoint, if it has one. The image's command plays no part.
   */
  lemma BinaryRuns(spec: ContainerSpec, name: string, baseImage: Option<string>, config: ImageConfig)
    requires spec.binary.Some?
    ensures var b := spec.binary.value;
            var nats := if b.natsArg.Some? && b.natsArg.value != "" then [b.natsArg.value, "nats." + name + ":4222"]
                        else [];
            var under := if spec.entrypoint.Some? && spec.entrypoint.value != [] then spec.entrypoint.value
                         else if spec.entrypoint.None? && baseImage.Some? && spec.init != Some(false) then
                           ["/sbin/tini", "--"]
                         else if config.entrypoint.Some? then config.entrypoint.value
                         else [];
            CommandLineOf(spec, name, baseImage, config)
            == under + ([b.path] + b.arguments + nats + if spec.arguments.Some? then spec.arguments.value else [])
  {
    BinaryCommands(spec.binary.value, name);
    MergeIsRuns(spec.Entrypoint(baseImage), OrEmpty(config.entrypoint), OrEmpty(config.cmd), spec.Commands(name), true);
    hide Binary.SetupNats, Binary.Commands, Runs;
  }

  /** A command runs with the user's arguments, under the entrypoint given or else the image's. */
  lemma CommandRuns(spec: ContainerSpec, name: string, baseImage: Option<string>, config: ImageConfig)
    requires spec.binary.None? && spec.command.Some?
    ensures var under := if spec.entrypoint.Some? && spec.entrypoint.value != [] then spec.entrypoint.value
                         else if config.entrypoint.Some? then config.entrypoint.value
                         else [];
            CommandLineOf(spec, name, baseImage, config)
            == under + [spec.command.value] + if spec.arguments.Some? then spec.arguments.value else []
  {
  }

  /** The image is the spec's own whatever the base image is, the base image only without one, and none without both. */
  lemma OwnImageWins(spec: ContainerSpec, own: string, baseImage: Option<string>)
    ensures ImageOf(spec.(image := Some(own)), baseImage) == Some(own)
    ensures ImageOf(spec.(image := None), baseImage) == baseImage
  {
  }

  /** With neither, the image runs as it is configured, under the entrypoint given and with the user's arguments. */
  lemma ImageRuns(spec: ContainerSpec, name: string, baseImage: Option<string>, config: ImageConfig)
    requires spec.binary.None? && spec.command.None?
    ensures CommandLineOf(spec, name, baseImage, config)
            == (if spec.entrypoint.Some? then spec.entrypoint.value else [])
               + (if config.entrypoint.Some? then config.entrypoint.value else [])
               + (if config.cmd.Some? then config.cmd.value else [])
               + if spec.arguments.Some? then spec.arguments.value else []
  {
  }
}
