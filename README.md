# Native-image task of the GraalVM Gradle plugin, in Dafny

This project models the `nativeImage` action of `NativeImageTask`, the Gradle
task that runs GraalVM's `native-image` compiler on a project. The action does
three things, and the model has one module for each plus two helper modules:

- **Argument assembly** (`NativeImageTask.NativeImage`). The action rejects a
  missing `mainClass`, then a missing `graalVersion`. Then it builds the argument
  list one element at a time: `-cp`, the classpath, `-H:Path=<output dir>`,
  `-H:Name=<name>` when a name is set, and the main class. Last, it resolves the
  executable.
- **Classpath construction** (`Classpath`). The runtime-classpath files and then
  the jar task's outputs go into a `LinkedHashSet`. The method `AddAll` models that
  fill as a loop that keeps a seen-set. The set is then joined with `:`. The
  specification function `Dedup` describes the set's contents. The lemmas prove
  four things about it: no duplicates, nothing lost or added, first-occurrence
  order, and runtime entries first. They also prove that these properties
  determine the result uniquely.
- **Executable resolution** (`GetExecutable`, `ArchitectureSpecifiedBinaryPath`).
  The executable is `CACHE_DIR/<version>/graalvm-ce-<version>/` followed by
  `Contents/Home/bin/native-image` on a Mac or `bin/native-image` on Linux. Any
  other system fails with an `IllegalStateException` that names the system.
- `Strings` provides `Join` and `Split`, which are proved inverse to each other.
  `Paths` models the Unix path rules of the Java platform that the task relies on:
  `Paths.get`, `Path.resolve`, and the text given by `toString`/`getAbsolutePath`.

Exceptions become `Result` values with a `TaskError`. `IllegalArgument` and
`IllegalState` carry the source's messages. A Gradle `Provider<String>` becomes an
`Option<string>`, and a file collection becomes a sequence of absolute path
strings. The operating system, the cache root, the project directory and the
outcome of `mkdirs() || exists()` are parameters (`Environment`).

Behaviour of the source worth noting:

- The two missing settings fail differently. A missing main class throws
  `IllegalArgumentException` (line 44). A missing version throws
  `IllegalStateException` (line 47).
- The output directory is created while the arguments are built (lines 54 and
  80). The operating system is looked up later, when the executable is resolved
  (lines 62 and 115). So on an unsupported system the action fails after the
  directory has been created.
- The classpath order is fixed by the `LinkedHashSet` (lines 97-99). Each file
  keeps the place where it first occurs, and runtime entries come before
  jar-only entries.
- The version is used as path text (line 90). A version that contains `/` adds
  more names. A version that starts with `/` is an absolute path, and `resolve`
  then discards the cache root (`AbsoluteVersionIgnoresCache`).

## Model

| member | source | states |
|---|---|---|
| `Classpath.Dedup` | src/main/java/com/palantir/gradle/graal/NativeImageTask.java:97-99 | the insertion-ordered set holds no duplicates and holds exactly the files that were added |
| `Classpath.DedupOrder` | src/main/java/com/palantir/gradle/graal/NativeImageTask.java:97-99 | every entry keeps the position of its first occurrence: entries are ordered by where they first appear in the added files |
| `Classpath.DedupAppend` | src/main/java/com/palantir/gradle/graal/NativeImageTask.java:98-99 | adding the jar outputs after the runtime classpath keeps the runtime entries first and in order; every later entry comes from the jar outputs and is not a runtime file |
| `Classpath.DedupCharacterization` | src/main/java/com/palantir/gradle/graal/NativeImageTask.java:97-99 | a list equals the set's contents if and only if it is duplicate-free, has the same elements and is in first-occurrence order |
| `Classpath.DedupIdempotent` | src/main/java/com/palantir/gradle/graal/NativeImageTask.java:97-99 | rebuilding the set from its own contents changes nothing |
| `Classpath.AddAll` | src/main/java/com/palantir/gradle/graal/NativeImageTask.java:98-99 | `addAll` leaves the set with the contents of adding everything added so far and then the new files, and with membership in step with the order |
| `Classpath.GenerateClasspathArgument` | src/main/java/com/palantir/gradle/graal/NativeImageTask.java:96-104 | the argument is the deduplicated runtime-then-jar files joined with ':' |
| `Classpath.ClasspathEntries` | src/main/java/com/palantir/gradle/graal/NativeImageTask.java:101-103 | for paths free of ':', splitting the argument at ':' gives each runtime or jar path exactly once, nothing else, in first-occurrence order, with runtime entries first |
| `Classpath.ClasspathArgument` | src/main/java/com/palantir/gradle/graal/NativeImageTask.java:96-104 | the value `generateClasspathArgument` returns: "" for no files, otherwise led by the first file added (its entries are read back by `ClasspathEntries`) |
| `Strings.Join` | src/main/java/com/palantir/gradle/graal/NativeImageTask.java:103 | `Collectors.joining`: no parts give "", and the text starts with the first part (that nothing else is lost or added is `SplitJoin`/`JoinSplit`) |
| `Strings.SplitJoin` | src/main/java/com/palantir/gradle/graal/NativeImageTask.java:101-103 | joining with a separator that no part contains loses nothing: splitting gives the parts back |
| `Strings.JoinSplit` | src/main/java/com/palantir/gradle/graal/NativeImageTask.java:101-103 | joining the pieces of a split string gives that string: one separator between neighbours, none at the ends |
| `Paths.Parse` | src/main/java/com/palantir/gradle/graal/NativeImageTask.java:116-117 | the path `Paths.get` makes of its joined text is absolute exactly when the text starts with '/', and each of its names is a non-empty '/'-separated piece of the text |
| `Paths.Get` | src/main/java/com/palantir/gradle/graal/NativeImageTask.java:90 | `Paths.get(first, more...)` is absolute exactly when a non-empty `first` starts with '/'; for plain names see `GetNames` |
| `Paths.Resolve` | src/main/java/com/palantir/gradle/graal/NativeImageTask.java:90-91 | the documented `Path.resolve` rule: an absolute argument replaces the base, a relative one is appended to the base's names |
| `Paths.RenderAbsolute` | src/main/java/com/palantir/gradle/graal/NativeImageTask.java:85 | the text of a path (`toString`/`getAbsolutePath`) starts with '/' exactly when the path is absolute |
| `Paths.RenderAppend` | src/main/java/com/palantir/gradle/graal/NativeImageTask.java:78 | the text of an absolute path with names appended is the base's text (nothing for the root `/`), a '/', then the new names joined with '/' |
| `Paths.ParseRender` | src/main/java/com/palantir/gradle/graal/NativeImageTask.java:92-93 | the text `getAbsolutePath` gives for a path denotes that same path |
| `Paths.GetNames` | src/main/java/com/palantir/gradle/graal/NativeImageTask.java:116-117 | `Paths.get` of plain names is the relative path of exactly those names |
| `NativeImageTask.GetOutputDirectory` | src/main/java/com/palantir/gradle/graal/NativeImageTask.java:77-86 | succeeds exactly when the directory could be created or exists, with the path of the project directory followed by `build`, `graal`; otherwise fails with the message naming that path |
| `NativeImageTask.OutputDirectoryUnderProject` | src/main/java/com/palantir/gradle/graal/NativeImageTask.java:78 | the output directory's text is the project directory's text followed by `/build/graal` for a project directory other than `/`, and `/build/graal` for the root |
| `NativeImageTask.BuildGraalIsGet` | src/main/java/com/palantir/gradle/graal/NativeImageTask.java:78 | `Paths.get("build", "graal")` is the relative path `build/graal` |
| `NativeImageTask.ArchitectureSpecifiedBinaryPath` | src/main/java/com/palantir/gradle/graal/NativeImageTask.java:114-121 | only Mac and Linux have a binary path, which is relative and ends in `bin/native-image`; any other system fails naming that system |
| `NativeImageTask.MacBinaryPathIsGet` | src/main/java/com/palantir/gradle/graal/NativeImageTask.java:116 | on a Mac the binary path is `Contents/Home/bin/native-image` as `Paths.get` builds it |
| `NativeImageTask.LinuxBinaryPathIsGet` | src/main/java/com/palantir/gradle/graal/NativeImageTask.java:117 | on Linux the binary path is `bin/native-image` as `Paths.get` builds it |
| `NativeImageTask.GetExecutable` | src/main/java/com/palantir/gradle/graal/NativeImageTask.java:88-94 | fails exactly on an unsupported system, whatever the version, naming the system; otherwise gives an absolute path |
| `NativeImageTask.ExecutableLayout` | src/main/java/com/palantir/gradle/graal/NativeImageTask.java:88-94 | for a one-name version the executable is the cache root's names, then `<version>`, `graalvm-ce-<version>`, then `Contents/Home/bin/native-image` (Mac) or `bin/native-image` (Linux) |
| `NativeImageTask.ExecutableText` | src/main/java/com/palantir/gradle/graal/NativeImageTask.java:88-94 | for a one-name version, the same as text: `<cache>/<version>/graalvm-ce-<version>/Contents/Home/bin/native-image` on a Mac and `.../bin/native-image` on Linux, with `<cache>` empty when the cache root is `/` |
| `NativeImageTask.AbsoluteVersionIgnoresCache` | src/main/java/com/palantir/gradle/graal/NativeImageTask.java:89-90 | a version starting with '/' gives the same executable whatever the cache root |
| `NativeImageTask.Arguments` | src/main/java/com/palantir/gradle/graal/NativeImageTask.java:50-60 | the vector is `-cp`, the classpath, `-H:Path=<dir>`, then `-H:Name=<name>` exactly when a name is set, and the main class last: 5 elements with a name, 4 without |
| `NativeImageTask.OmittingNameRemovesOnlyName` | src/main/java/com/palantir/gradle/graal/NativeImageTask.java:56-58 | without a name, the vector is the named vector with only the `-H:Name=` element removed |
| `NativeImageTask.ExampleArguments` | src/main/java/com/palantir/gradle/graal/NativeImageTask.java:50-60 | `com.example.Main`, name `myapp`, project `/proj` and classpath `/proj/libs/a.jar` give `-cp /proj/libs/a.jar -H:Path=/proj/build/graal -H:Name=myapp com.example.Main` |
| `NativeImageTask.NativeImage` | src/main/java/com/palantir/gradle/graal/NativeImageTask.java:40-64 | a missing main class fails with the argument error, whatever else is set. With a main class, a missing version fails with the state error. Then an unusable output directory fails, then an unsupported system. The action succeeds exactly when none of these applies, and then runs the resolved executable with the arguments above |

## Left out

- `getProject().exec(...)` and the process it starts (lines 42 and 62-63): the process is external. `NativeImage` returns the `Invocation` (executable and arguments) that it would configure.
- Creating the output directory (lines 80-83): the file-system result of `mkdirs() || exists()` is the boolean `outputDirectoryReady`.
- The Gradle lookups of the `runtimeClasspath` configuration and of the `jar` task's outputs (lines 98-99): their files are inputs, given as absolute path strings in iteration order. Two files count as the same when their path strings are equal.
- `Platform.operatingSystem()` and `GradleGraalPlugin.CACHE_DIR`: `Platform` and `GradleGraalPlugin` are not part of this model. The system and the cache root are parameters. The cache root and the project directory are taken to be absolute, so `getAbsolutePath` is their text.
- `getGroup`, `getDescription` and `configure` (lines 67-75 and 106-112): Gradle wiring with no logic of its own.
- `File.getAbsolutePath` on the classpath files (line 102): the inputs are already absolute path strings.
- `Paths.get` rejecting a version that contains a NUL character (`InvalidPathException`): the model accepts every version string.
- `ClasspathEntries`: reads the argument back only for paths free of ':'. If a path contains ':', the joined argument is ambiguous, and the compiler cannot read it back either.
- `ExecutableText`: states the executable's text only for a version that is a single path name, like `ExecutableLayout`.
- `ExecutableLayout`: states the layout for a version that is a single path name. `GetExecutable` is defined for every version. `AbsoluteVersionIgnoresCache` covers versions that start with '/'.
