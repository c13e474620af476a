/**
 * Building the firmware (abby/firmware/__init__.py): the PlatformIO
 * environments, the lookup of a cipher by name, and what `pio_run` hands
 * to PlatformIO: the build flags and other settings it puts in the process
 * environment, the command-line arguments, and the path of the built
 * firmware.
 *
 * The temporary directory and file names are parameters; the generation
 * of the assembly file (abby/firmware/generate.py) is modelled in module
 * Generate, and PlatformIO itself is not part of this model.
 */
module Firmware {
  import opened Common
  import opened BlockCipher
  import Generate

  /** `environments`, matching the PlatformIO configuration. */
  const Environments: seq<string> := ["bbcmicrobit", "disco_f051r8", "native", "disco_f100rb"]

  /** Cipher i is the first of the list with that name. */
  predicate FirstMatch(ciphers: seq<Cipher>, name: string, i: int)
  {
    0 <= i < |ciphers| && ciphers[i].name == name && forall j :: 0 <= j < i ==> ciphers[j].name != name
  }

  /** The search loop of `get_blockcipher` over a list of ciphers. */
  method Find(ciphers: seq<Cipher>, name: string) returns (r: Result<Cipher, string>)
    ensures r.Ok? <==> exists i :: 0 <= i < |ciphers| && ciphers[i].name == name
    ensures r.Ok? ==> exists i :: FirstMatch(ciphers, name, i) && ciphers[i] == r.value
    ensures r.Err? ==> r.error == name + " is not implemented"
  {
    var i := 0;
    while i < |ciphers|
      invariant 0 <= i <= |ciphers|
      invariant forall j :: 0 <= j < i ==> ciphers[j].name != name
    {
      if ciphers[i].name == name {
        return Ok(ciphers[i]);
      }
      i := i + 1;
    }
    return Err(name + " is not implemented");
  }

  /**
   * `get_blockcipher`: the cipher of the list with that name, or a
   * `ValueError`. The names are distinct, so each listed cipher is found
   * by its own name.
   */
  method GetBlockcipher(name: string) returns (r: Result<Cipher, string>)
    ensures r.Ok? <==> exists i :: 0 <= i < |Blockciphers| && Blockciphers[i].name == name
    ensures r.Err? ==> r.error == name + " is not implemented"
    ensures forall i :: 0 <= i < |Blockciphers| && Blockciphers[i].name == name ==> r == Ok(Blockciphers[i])
  {
    NamesDistinct();
    r := Find(Blockciphers, name);
  }

  /** The process environment, which `pio_run` writes and PlatformIO reads. */
  class Environ {
    var vars: map<string, string>

    constructor(vars: map<string, string>)
      ensures this.vars == vars
    {
      this.vars := vars;
    }

    /** `os.environ[key] = value`. */
    method Set(key: string, value: string)
      modifies this
      ensures vars == old(vars)[key := value]
    {
      vars := vars[key := value];
    }
  }

  /** The flag naming the generated assembly file, quoted for the shell, with a trailing space. */
  function GeneratedPathFlag(srcFile: string): string
  {
    "'-DGENERATED_PATH=\"" + srcFile + "\"' "
  }

  /** `w` occurs in `s` at index i as a whole word: delimited by spaces or the ends of `s`. */
  predicate WordAt(s: string, w: string, i: int)
  {
    0 <= i && i + |w| <= |s| && s[i..i + |w|] == w &&
    (i == 0 || s[i - 1] == ' ') && (i + |w| == |s| || s[i + |w|] == ' ')
  }

  /** `w` is one of the space-separated words of `s`. */
  ghost predicate HasWord(s: string, w: string)
  {
    exists i :: WordAt(s, w, i)
  }

  /**
   * The build flags as the source writes them: "-DELMO" and "-DQEMU" are
   * appended without a separator.
   */
  function BuildFlagsAsWritten(kind: Kind, srcFile: string, elmo: bool, qemu: bool): string
  {
    (if kind.Generated? then GeneratedPathFlag(srcFile) else "") +
    (if elmo then "-DELMO" else "") + (if qemu then "-DQEMU" else "")
  }

  /** With both options the two defines run together, so "-DQEMU" is not a flag of its own. */
  lemma GluedDefines()
    ensures BuildFlagsAsWritten(Primitive, "", true, true) == "-DELMO-DQEMU"
    ensures !HasWord(BuildFlagsAsWritten(Primitive, "", true, true), "-DQEMU")
  {
    var s := BuildFlagsAsWritten(Primitive, "", true, true);
    assert s == "-DELMO-DQEMU";
    assert forall k :: 0 <= k < |s| ==> s[k] != ' ';
    forall i | WordAt(s, "-DQEMU", i)
      ensures false
    {
    }
  }

  /** With only one of the two options, the as-written flags still carry that define as a word of its own. */
  lemma AsWrittenSingleDefine(kind: Kind, srcFile: string, elmo: bool, qemu: bool)
    ensures elmo && !qemu ==> HasWord(BuildFlagsAsWritten(kind, srcFile, elmo, qemu), "-DELMO")
    ensures qemu && !elmo ==> HasWord(BuildFlagsAsWritten(kind, srcFile, elmo, qemu), "-DQEMU")
  {
    var g := if kind.Generated? then GeneratedPathFlag(srcFile) else "";
    var s := BuildFlagsAsWritten(kind, srcFile, elmo, qemu);
    assert g == "" || g[|g| - 1] == ' ';
    if elmo && !qemu {
      WordBetween(g, "-DELMO", "");
      assert s == g + "-DELMO" + "";
    }
    if qemu && !elmo {
      WordBetween(g, "-DQEMU", "");
      assert s == g + "-DQEMU" + "";
    }
  }

  /** The build flags with every define followed by a space, as the generated-path flag already is. */
  function BuildFlags(kind: Kind, srcFile: string, elmo: bool, qemu: bool): string
  {
    (if kind.Generated? then GeneratedPathFlag(srcFile) else "") +
    (if elmo then "-DELMO " else "") + (if qemu then "-DQEMU " else "")
  }

  /** Each requested define is a word of the corrected flags. */
  lemma BuildFlagsWords(kind: Kind, srcFile: string, elmo: bool, qemu: bool)
    ensures elmo ==> HasWord(BuildFlags(kind, srcFile, elmo, qemu), "-DELMO")
    ensures qemu ==> HasWord(BuildFlags(kind, srcFile, elmo, qemu), "-DQEMU")
  {
    var g := if kind.Generated? then GeneratedPathFlag(srcFile) else "";
    var e := if elmo then "-DELMO " else "";
    var q := if qemu then "-DQEMU " else "";
    var s := BuildFlags(kind, srcFile, elmo, qemu);
    assert s == g + e + q;
    assert g == "" || g[|g| - 1] == ' ';
    if elmo {
      WordBetween(g, "-DELMO", " " + q);
      assert s == g + "-DELMO" + (" " + q);
    }
    if qemu {
      assert g + e == "" || (g + e)[|g + e| - 1] == ' ';
      WordBetween(g + e, "-DQEMU", " ");
      assert s == (g + e) + "-DQEMU" + " ";
    }
  }

  /** A word between a prefix ending in a space and a rest starting with one is a word of the whole. */
  lemma WordBetween(g: string, w: string, rest: string)
    requires g == "" || g[|g| - 1] == ' '
    requires rest == "" || rest[0] == ' '
    ensures WordAt(g + w + rest, w, |g|)
  {
    var s := g + w + rest;
    assert s[|g|..|g| + |w|] == w;
    if g != "" {
      assert s[|g| - 1] == g[|g| - 1];
    }
    if rest != "" {
      assert s[|g| + |w|] == rest[0];
    }
  }

  /** The PlatformIO arguments: environment and project directory, "-s" unless debugging, the upload target if asked. */
  function RunArgs(env: string, projectDir: string, upload: bool, debug: bool): (args: seq<string>)
    ensures |args| >= 4 && args[..4] == ["-e", env, "-d", projectDir]
    ensures |args| == 4 + (if debug then 0 else 1) + (if upload then 2 else 0)
    ensures !debug ==> args[4] == "-s"
    ensures upload ==> args[|args| - 2..] == ["-t", "upload"]
  {
    ["-e", env, "-d", projectDir] + (if debug then [] else ["-s"]) + (if upload then ["-t", "upload"] else [])
  }

  /** The name of the built file: "program" for the native build, "firmware.bin" for a board. */
  function OutputName(env: string): (n: string)
    ensures n == "program" <==> env == "native"
    ensures n != "program" ==> n == "firmware.bin"
  {
    if env == "native" then "program" else "firmware.bin"
  }

  /** The assembly written to the temporary `.S` file: the generated program for generated code, nothing otherwise. */
  method WriteSource(algorithm: Cipher, src: Generate.Stream, draws: seq<nat>)
    requires algorithm.kind.Generated? ==> 4 * algorithm.kind.count <= |draws|
    modifies src
    ensures algorithm.kind.Generated? ==>
      src.text == old(src.text) + Generate.Program(Generate.Possibilities, draws, algorithm.kind.count)
    ensures !algorithm.kind.Generated? ==> src.text == old(src.text)
  {
    if algorithm.kind.Generated? {
      Generate.Generate(src, draws, algorithm.kind.count);
    }
  }

  /** The `build_flags +=` steps of `pio_run`, in the source's order. */
  method Flags(algorithm: Cipher, srcFile: string, elmo: bool, qemu: bool) returns (buildFlags: string)
    ensures buildFlags == BuildFlagsAsWritten(algorithm.kind, srcFile, elmo, qemu)
  {
    buildFlags := "";
    if algorithm.kind.Generated? {
      buildFlags := buildFlags + GeneratedPathFlag(srcFile);
    }
    if elmo {
      buildFlags := buildFlags + "-DELMO";
    }
    if qemu {
      buildFlags := buildFlags + "-DQEMU";
    }
  }

  /**
   * `pio_run`, given the temporary workspace directory and the temporary
   * assembly file (its name and its stream): for generated code it first writes
   * the generated program to that file, with `draws` the choices the seeded
   * generator makes, then builds the flags as the source writes them
   * (see GluedDefines and AsWrittenSingleDefine) and the arguments, sets the three
   * PlatformIO variables and nothing else, and returns the arguments passed
   * to PlatformIO and the path of the firmware it builds, as its components.
   */
  method PioRun(environ: Environ, env: string, algorithm: Cipher, upload: bool, elmo: bool, qemu: bool, debug: bool,
                projectDir: string, workspaceDir: string, srcFile: string, src: Generate.Stream, draws: seq<nat>)
    returns (args: seq<string>, output: seq<string>)
    requires algorithm.kind.Generated? ==> 4 * algorithm.kind.count <= |draws|
    modifies environ, src
    ensures algorithm.kind.Generated? ==>
      src.text == old(src.text) + Generate.Program(Generate.Possibilities, draws, algorithm.kind.count)
    ensures !algorithm.kind.Generated? ==> src.text == old(src.text)
    ensures environ.vars == old(environ.vars)
      ["PLATFORMIO_BUILD_FLAGS" := BuildFlagsAsWritten(algorithm.kind, srcFile, elmo, qemu)]
      ["PLATFORMIO_ALGORITHM" := algorithm.name]
      ["PLATFORMIO_WORKSPACE_DIR" := workspaceDir]
    ensures args == RunArgs(env, projectDir, upload, debug)
    ensures output == [workspaceDir, "build", env, OutputName(env)]
  {
    WriteSource(algorithm, src, draws);
    var buildFlags := Flags(algorithm, srcFile, elmo, qemu);
    environ.Set("PLATFORMIO_BUILD_FLAGS", buildFlags);
    environ.Set("PLATFORMIO_ALGORITHM", algorithm.name);
    environ.Set("PLATFORMIO_WORKSPACE_DIR", workspaceDir);

    args := ["-e", env, "-d", projectDir];
    if !debug {
      args := args + ["-s"];
    }
    if upload {
      args := args + ["-t", "upload"];
    }
    assert args == RunArgs(env, projectDir, upload, debug);

    var outputName;
    if env == "native" {
      outputName := "program";
    } else {
      outputName := "firmware.bin";
    }
    output := [workspaceDir, "build", env, outputName];
  }
}
