/** The `nativeImage` action of the task that runs GraalVM's native-image
    compiler: it checks the configured settings, assembles the command line
    and resolves the cached native-image executable. */
module NativeImageTask {
  import opened Wrappers
  import opened Strings
  import opened Paths
  import opened Classpath

  /** The operating system the build runs on. */
  datatype OperatingSystem = MAC | LINUX | Other(name: string)

  /** The exceptions the action throws, with their messages. */
  datatype TaskError =
    | IllegalArgument(message: string)
    | IllegalState(message: string)

  /** The task's three settings (`mainClass`, `outputName`, `graalVersion`),
      each possibly absent. */
  datatype Config = Config(mainClass: Option<string>, outputName: Option<string>, graalVersion: Option<string>)

  /** What the action reads from the build and the machine: the project
      directory, the cache root, the operating system, the absolute paths of
      the runtime classpath files and of the jar task's outputs, and whether the
      output directory was created or already existed (`mkdirs() || exists()`). */
  datatype Environment = Environment(
    projectDir: AbsolutePath,
    cacheDir: AbsolutePath,
    os: OperatingSystem,
    runtimeClasspath: seq<string>,
    jarOutputs: seq<string>,
    outputDirectoryReady: bool)

  /** The process the action asks the build to run. */
  datatype Invocation = Invocation(executable: string, args: seq<string>)

  const MainClassRequired := "nativeImage requires graal.mainClass to be defined."
  const VersionRequired := "nativeImage requires graal.version to be defined."
  const OutputDirectoryUnavailable := "Output directory does not exist and cannot be created: "
  const NoSupportFor := "No GraalVM support for "

  /** `<projectDir>/build/graal`: the project directory resolved against
      `Paths.get("build", "graal")`, which `BuildGraalIsGet` shows to be this relative path. */
  function OutputDirectoryPath(projectDir: AbsolutePath): AbsolutePath
  {
    Resolve(projectDir, Path(false, ["build", "graal"]))
  }

  lemma BuildGraalIsGet()
    ensures Get("build", ["graal"]) == Path(false, ["build", "graal"])
  {
    GetNames(["build", "graal"]);
  }

  /** `getOutputDirectory`: the text of `<projectDir>/build/graal`, or the
      failure when the directory neither could be created nor exists. */
  function GetOutputDirectory(projectDir: AbsolutePath, ready: bool): (r: Result<string, TaskError>)
    ensures r.Success? <==> ready
    ensures r.Success? ==> r.value == Render(Path(true, projectDir.names + ["build", "graal"]))
    ensures r.Failure? ==> r.error == IllegalState(OutputDirectoryUnavailable + Render(Path(true, projectDir.names + ["build", "graal"])))
  {
    var dir := Render(OutputDirectoryPath(projectDir));
    if ready then Success(dir) else Failure(IllegalState(OutputDirectoryUnavailable + dir))
  }

  /** The output directory is the project directory's path followed by
      `/build/graal`; under the root it is `/build/graal`. */
  lemma OutputDirectoryUnderProject(projectDir: AbsolutePath)
    ensures projectDir.names != [] ==> GetOutputDirectory(projectDir, true) == Success(Render(projectDir) + "/build/graal")
    ensures projectDir.names == [] ==> GetOutputDirectory(projectDir, true) == Success("/build/graal")
  {
    RenderAppend(projectDir, ["build", "graal"]);
    var root := ParentText(projectDir);
    assert Join(["build", "graal"], '/') == "build/graal";
    assert root + "/" + "build/graal" == root + "/build/graal";
    if projectDir.names == [] {
      assert root + "/build/graal" == "/build/graal";
    }
  }

  /** `getArchitectureSpecifiedBinaryPath`: where the native-image binary lies
      inside a GraalVM distribution, for each supported operating system. */
  function ArchitectureSpecifiedBinaryPath(os: OperatingSystem): (r: Result<NormalPath, TaskError>)
    ensures r.Success? <==> os.MAC? || os.LINUX?
    ensures r.Success? ==> var names := r.value.names;
      && !r.value.absolute
      && |names| >= 2 && names[|names| - 2] == "bin" && names[|names| - 1] == "native-image"
    ensures os.Other? ==> r.error == IllegalState(NoSupportFor + os.name)
  {
    match os
    case MAC => Success(Path(false, ["Contents", "Home", "bin", "native-image"]))
    case LINUX => Success(Path(false, ["bin", "native-image"]))
    case Other(name) => Failure(IllegalState(NoSupportFor + name))
  }

  /** The Mac binary path is what `Paths.get` makes of its names. */
  lemma MacBinaryPathIsGet()
    ensures ArchitectureSpecifiedBinaryPath(MAC).value == Get("Contents", ["Home", "bin", "native-image"])
  {
    GetNames(["Contents", "Home", "bin", "native-image"]);
  }

  /** The Linux binary path is what `Paths.get` makes of its names. */
  lemma LinuxBinaryPathIsGet()
    ensures ArchitectureSpecifiedBinaryPath(LINUX).value == Get("bin", ["native-image"])
  {
    GetNames(["bin", "native-image"]);
  }

  /** `getExecutable`: `<cacheDir>/<version>/graalvm-ce-<version>/` followed by
      the binary path of the operating system; whatever the version, an
      unsupported system fails naming that system, and a supported one gives an
      absolute path. */
  function GetExecutable(cacheDir: AbsolutePath, version: string, os: OperatingSystem): (r: Result<string, TaskError>)
    ensures r.Failure? <==> os.Other?
    ensures os.Other? ==> r.error == IllegalState(NoSupportFor + os.name)
    ensures r.Success? ==> |r.value| > 0 && r.value[0] == '/'
  {
    var distribution := Resolve(cacheDir, Get(version, ["graalvm-ce-" + version]));
    match ArchitectureSpecifiedBinaryPath(os)
    case Success(binary) => Success(Render(Resolve(distribution, binary)))
    case Failure(e) => Failure(e)
  }

  /** The names below the cache root for a version that is a single path name. */
  lemma DistributionNames(version: string)
    requires IsName(version)
    ensures Get(version, ["graalvm-ce-" + version]) == Path(false, [version, "graalvm-ce-" + version])
  {
    var names := [version, "graalvm-ce-" + version];
    assert '/' !in "graalvm-ce-";
    assert forall k :: 0 <= k < |names| ==> IsName(names[k]);
    GetNames(names);
  }

  /** For a version that is a single path name the executable lies under the
      cache root in `<version>/graalvm-ce-<version>/`, then
      `Contents/Home/bin/native-image` on a Mac and `bin/native-image` on Linux;
      on any other system the lookup fails naming that system. */
  lemma ExecutableLayout(cacheDir: AbsolutePath, version: string, os: OperatingSystem)
    requires IsName(version)
    ensures os.MAC? ==>
      GetExecutable(cacheDir, version, os) == Success(Render(Path(true, cacheDir.names + [version, "graalvm-ce-" + version, "Contents", "Home", "bin", "native-image"])))
    ensures os.LINUX? ==>
      GetExecutable(cacheDir, version, os) == Success(Render(Path(true, cacheDir.names + [version, "graalvm-ce-" + version, "bin", "native-image"])))
    ensures os.Other? ==> GetExecutable(cacheDir, version, os) == Failure(IllegalState(NoSupportFor + os.name))
  {
    DistributionNames(version);
    if os.MAC? {
      assert cacheDir.names + [version, "graalvm-ce-" + version] + ["Contents", "Home", "bin", "native-image"]
        == cacheDir.names + [version, "graalvm-ce-" + version, "Contents", "Home", "bin", "native-image"];
    } else if os.LINUX? {
      assert cacheDir.names + [version, "graalvm-ce-" + version] + ["bin", "native-image"]
        == cacheDir.names + [version, "graalvm-ce-" + version, "bin", "native-image"];
    }
  }

  /** Helper for `DistributionText`: regroups the concatenation. */
  lemma DistributionTextRegrouped(root: string, version: string, binaryText: string)
    ensures root + "/" + (version + "/" + ("graalvm-ce-" + version) + "/" + binaryText)
      == root + "/" + version + "/graalvm-ce-" + version + "/" + binaryText
  {
    assert "/" + ("graalvm-ce-" + version) == "/graalvm-ce-" + version;
  }

  /** The text of `<cacheDir>/<version>/graalvm-ce-<version>/<binary>`. */
  lemma DistributionText(cacheDir: AbsolutePath, version: string, binary: seq<string>, binaryText: string)
    requires binary != [] && Join(binary, '/') == binaryText
    ensures Render(Path(true, cacheDir.names + ([version, "graalvm-ce-" + version] + binary)))
      == ParentText(cacheDir) + "/" + version + "/graalvm-ce-" + version + "/" + binaryText
  {
    var root, dist := ParentText(cacheDir), "graalvm-ce-" + version;
    RenderAppend(cacheDir, [version, dist] + binary);
    JoinAppend([version, dist], binary, '/');
    assert Join([version, dist], '/') == version + "/" + dist;
    DistributionTextRegrouped(root, version, binaryText);
  }

  /** Helper for `MacText`: the Mac binary path as text. */
  lemma MacBinaryText()
    ensures Join(["Contents", "Home", "bin", "native-image"], '/') == "Contents/Home/bin/native-image"
  {
    JoinFour("Contents", "Home", "bin", "native-image");
    assert "Contents" + "/" + "Home" + "/" + "bin" + "/" + "native-image" == "Contents/Home/bin/native-image";
  }

  /** Helper for `MacBinaryText`: joining four names. */
  lemma JoinFour(a: string, b: string, c: string, d: string)
    ensures Join([a, b, c, d], '/') == a + "/" + b + "/" + c + "/" + d
  {
    assert [a, b, c, d][1..] == [b, c, d];
    assert [b, c, d][1..] == [c, d];
    assert [c, d][1..] == [d];
    assert Join([c, d], '/') == c + "/" + d;
    assert Join([b, c, d], '/') == b + "/" + (c + "/" + d);
    assert Join([a, b, c, d], '/') == a + "/" + (b + "/" + (c + "/" + d));
  }

  /** On a Mac, the text of the executable's path under the cache root. */
  lemma MacText(cacheDir: AbsolutePath, version: string)
    ensures Render(Path(true, cacheDir.names + [version, "graalvm-ce-" + version, "Contents", "Home", "bin", "native-image"]))
      == ParentText(cacheDir) + "/" + version + "/graalvm-ce-" + version + "/" + "Contents/Home/bin/native-image"
  {
    var dist := "graalvm-ce-" + version;
    var binary := ["Contents", "Home", "bin", "native-image"];
    assert [version, dist, "Contents", "Home", "bin", "native-image"] == [version, dist] + binary;
    MacBinaryText();
    DistributionText(cacheDir, version, binary, "Contents/Home/bin/native-image");
  }

  /** On Linux, the text of the executable's path under the cache root. */
  lemma LinuxText(cacheDir: AbsolutePath, version: string)
    ensures Render(Path(true, cacheDir.names + [version, "graalvm-ce-" + version, "bin", "native-image"]))
      == ParentText(cacheDir) + "/" + version + "/graalvm-ce-" + version + "/" + "bin/native-image"
  {
    var dist := "graalvm-ce-" + version;
    var binary := ["bin", "native-image"];
    assert [version, dist, "bin", "native-image"] == [version, dist] + binary;
    assert Join(binary, '/') == "bin/native-image";
    DistributionText(cacheDir, version, binary, "bin/native-image");
  }

  /** The executable as text for a version that is a single path name: the
      cache root's text (nothing for the root itself), then
      `/<version>/graalvm-ce-<version>/` and the binary path. */
  lemma ExecutableText(cacheDir: AbsolutePath, version: string, os: OperatingSystem)
    requires IsName(version)
    ensures os.MAC? ==>
      GetExecutable(cacheDir, version, os)
      == Success(ParentText(cacheDir) + "/" + version + "/graalvm-ce-" + version + "/" + "Contents/Home/bin/native-image")
    ensures os.LINUX? ==>
      GetExecutable(cacheDir, version, os)
      == Success(ParentText(cacheDir) + "/" + version + "/graalvm-ce-" + version + "/" + "bin/native-image")
  {
    ExecutableLayout(cacheDir, version, os);
    MacText(cacheDir, version);
    LinuxText(cacheDir, version);
  }

  /** A version starting with '/' denotes an absolute path, which `resolve`
      returns unchanged: the cache root then plays no part. */
  lemma AbsoluteVersionIgnoresCache(cacheDir: AbsolutePath, otherCacheDir: AbsolutePath, version: string, os: OperatingSystem)
    requires |version| > 0 && version[0] == '/'
    ensures GetExecutable(cacheDir, version, os) == GetExecutable(otherCacheDir, version, os)
  {
  }

  /** The argument vector: `-cp`, the classpath, `-H:Path=<out>`, then
      `-H:Name=<name>` when a name is set, and the main class last. */
  function Arguments(classpath: string, outputDirectory: string, outputName: Option<string>, mainClass: string): (args: seq<string>)
    ensures |args| == if outputName.Some? then 5 else 4
    ensures args[0] == "-cp" && args[1] == classpath && args[2] == "-H:Path=" + outputDirectory
    ensures outputName.Some? ==> args[3] == "-H:Name=" + outputName.value
    ensures args[|args| - 1] == mainClass
  {
    ["-cp", classpath, "-H:Path=" + outputDirectory]
      + (if outputName.Some? then ["-H:Name=" + outputName.value] else [])
      + [mainClass]
  }

  /** Leaving the output name out removes the `-H:Name=` argument and changes nothing else. */
  lemma OmittingNameRemovesOnlyName(classpath: string, outputDirectory: string, name: string, mainClass: string)
    ensures var named := Arguments(classpath, outputDirectory, Some(name), mainClass);
      Arguments(classpath, outputDirectory, None, mainClass) == named[..3] + named[4..]
  {
  }

  /** The one classpath file `/proj/libs/a.jar` is the whole classpath argument. */
  lemma ExampleClasspath()
    ensures ClasspathArgument(["/proj/libs/a.jar"], []) == "/proj/libs/a.jar"
  {
    var jar := ["/proj/libs/a.jar"];
    assert jar + [] == jar;
    assert Dedup(jar) == jar;
  }

  /** The output directory of the project `/proj`. */
  lemma ExampleOutputDirectory()
    ensures GetOutputDirectory(Path(true, ["proj"]), true) == Success("/proj/build/graal")
  {
    OutputDirectoryUnderProject(Path(true, ["proj"]));
    assert Render(Path(true, ["proj"])) == "/proj";
    assert "/proj" + "/build/graal" == "/proj/build/graal";
  }

  /** The arguments for `com.example.Main` named `myapp` in project `/proj`
      with the one classpath file `/proj/libs/a.jar`. */
  lemma ExampleArguments()
    ensures Arguments(
        ClasspathArgument(["/proj/libs/a.jar"], []),
        GetOutputDirectory(Path(true, ["proj"]), true).value,
        Some("myapp"),
        "com.example.Main")
      == ["-cp", "/proj/libs/a.jar", "-H:Path=/proj/build/graal", "-H:Name=myapp", "com.example.Main"]
  {
    ExampleClasspath();
    ExampleOutputDirectory();
    assert "-H:Path=" + "/proj/build/graal" == "-H:Path=/proj/build/graal";
    assert "-H:Name=" + "myapp" == "-H:Name=myapp";
  }

  /** `nativeImage`: fails on a missing main class, then on a missing version;
      otherwise builds the arguments one by one (creating the output directory
      on the way) and resolves the executable. */
  method NativeImage(cfg: Config, env: Environment) returns (r: Result<Invocation, TaskError>)
    ensures cfg.mainClass.None? ==> r == Failure(IllegalArgument(MainClassRequired))
    ensures cfg.mainClass.Some? && cfg.graalVersion.None? ==> r == Failure(IllegalState(VersionRequired))
    ensures cfg.mainClass.Some? && cfg.graalVersion.Some? && !env.outputDirectoryReady ==>
      r == Failure(GetOutputDirectory(env.projectDir, false).error)
    ensures cfg.mainClass.Some? && cfg.graalVersion.Some? && env.outputDirectoryReady && env.os.Other? ==>
      r == Failure(IllegalState(NoSupportFor + env.os.name))
    ensures r.Success? <==>
      cfg.mainClass.Some? && cfg.graalVersion.Some? && env.outputDirectoryReady && !env.os.Other?
    ensures r.Success? ==>
      && r.value.args == Arguments(
           ClasspathArgument(env.runtimeClasspath, env.jarOutputs),
           GetOutputDirectory(env.projectDir, true).value,
           cfg.outputName,
           cfg.mainClass.value)
      && r.value.executable == GetExecutable(env.cacheDir, cfg.graalVersion.value, env.os).value
  {
    if cfg.mainClass.None? {
      return Failure(IllegalArgument(MainClassRequired));
    }
    if cfg.graalVersion.None? {
      return Failure(IllegalState(VersionRequired));
    }

    var args: seq<string> := [];
    args := args + ["-cp"];
    var classpath := GenerateClasspathArgument(env.runtimeClasspath, env.jarOutputs);
    args := args + [classpath];

    var outputDirectory := GetOutputDirectory(env.projectDir, env.outputDirectoryReady);
    if outputDirectory.Failure? {
      return Failure(outputDirectory.error);
    }
    args := args + ["-H:Path=" + outputDirectory.value];
    assert args == ["-cp", classpath, "-H:Path=" + outputDirectory.value];

    if cfg.outputName.Some? {
      args := args + ["-H:Name=" + cfg.outputName.value];
    }

    args := args + [cfg.mainClass.value];
    assert args == Arguments(classpath, outputDirectory.value, cfg.outputName, cfg.mainClass.value);

    var executable := GetExecutable(env.cacheDir, cfg.graalVersion.value, env.os);
    if executable.Failure? {
      return Failure(executable.error);
    }
    r := Success(Invocation(executable.value, args));
  }
}
