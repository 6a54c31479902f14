# dockerops argument assembly, modelled in Dafny

dockerops is a small launcher. It reads a YAML configuration of bind mounts
(`volumes`: `local`, `container`, `rw`) and environment variables
(`environment`: `key`, `value`) and runs `docker` with an argument list built
from it. This project models how that argument list is built, and proves its
properties:

- the list always starts with `run --platform linux/amd64`;
- next comes one `-e KEY=VAL` token for each environment entry whose key and
  value are both non-blank after `strings.TrimSpace`. The token is a single
  argument with an embedded space. Entries keep their file order;
- next comes a `--mount` / `type=bind,source=L,target=C` pair for every
  volume, in file order, with both paths trimmed. Blank volumes are not
  skipped;
- the list always ends with `nanos:latest /app/ops`.

Files:

- `go_strings.dfy` (module `GoStrings`): Go's `unicode.IsSpace` and
  `strings.TrimSpace` as pure functions. `IsTrimOf` gives a declarative
  meaning of trimming, and lemmas prove that `TrimSpace` is the unique trim,
  that it is empty exactly for blank strings, and that it is idempotent.
- `dockerops.dfy` (module `DockerOps`): the `Parameters`, `Volume` and `Env`
  records as datatypes, and the argument list as a specification function,
  `DockerArgs`. `BuildDockerArgs` is the assembly section of `main` as a
  method. It keeps Go's two `for range` append loops, including the
  `continue` that skips blank environment entries, and is proved equal to
  `DockerArgs`. The rest of the module is lemmas about `DockerArgs`.

Where the code and the written design of the tool disagree, the model follows
the code:

- Environment entries become `-e KEY=VAL` engine flags. They are not set in
  the process environment.
- Volumes whose paths are empty or whitespace only are not skipped. They
  produce `type=bind,source=,target=` (`BlankVolumeMounted`).
- The last token is the fixed `/app/ops`. It is not the joined positional
  call arguments: the `Call` option is parsed
  (cmd/dockerops/dockerops.go:54), but the code that would append it is
  commented out (cmd/dockerops/dockerops.go:112-114).
- There is no merging of `-e` command-line overrides into the environment.

## Model

| member | source | states |
|---|---|---|
| `GoStrings.TrimLeftSpec` | cmd/dockerops/dockerops.go:93 | left trimming removes a prefix made only of whitespace and stops at the first non-space character |
| `GoStrings.TrimRightSpec` | cmd/dockerops/dockerops.go:93 | right trimming removes a suffix made only of whitespace and stops at the last non-space character |
| `GoStrings.TrimSpaceIsTrim` | cmd/dockerops/dockerops.go:93 | `TrimSpace(s)` is `s[i..j]`, where `s[..i]` and `s[j..]` are all whitespace and the result has no whitespace at either end |
| `GoStrings.TrimSpaceUnique` | cmd/dockerops/dockerops.go:101 | any string that is a trim of `s` in that declarative sense equals `TrimSpace(s)`, so the function and the declarative reading agree |
| `GoStrings.TrimSpaceEmptyIffBlank` | cmd/dockerops/dockerops.go:95 | trimming gives `""` if and only if the input is empty or whitespace only (both directions) |
| `GoStrings.TrimSpaceIdempotent` | cmd/dockerops/dockerops.go:93 | trimming an already trimmed string changes nothing |
| `DockerOps.BuildDockerArgs` | cmd/dockerops/dockerops.go:87-111 | the two append loops and the fixed appends produce exactly `DockerArgs(p)` |
| `DockerOps.VolumeArgs` | cmd/dockerops/dockerops.go:100-106 | every volume contributes exactly two tokens: the mount block has twice as many tokens as there are volumes |
| `DockerOps.EnvTokensSpec` | cmd/dockerops/dockerops.go:92-99 | an entry with a blank key or value yields no token; otherwise it yields exactly one token, `"-e " + k + "=" + v`, where `k` and `v` are the trimmed key and value, non-empty and with no whitespace at either end |
| `DockerOps.EnvTokensCount` | cmd/dockerops/dockerops.go:95-98 | an entry yields one token if both its key and its value are non-blank, and zero tokens otherwise |
| `DockerOps.EnvArgsLength` | cmd/dockerops/dockerops.go:92-99 | the environment block has one token per entry whose key and value are both non-blank |
| `DockerOps.DockerArgsLength` | cmd/dockerops/dockerops.go:87-111 | the list has 3 + (kept env entries) + 2 × (number of volumes) + 2 tokens |
| `DockerOps.DockerArgsPrefix` | cmd/dockerops/dockerops.go:88-90 | the first three tokens are exactly `run`, `--platform`, `linux/amd64` |
| `DockerOps.DockerArgsSuffix` | cmd/dockerops/dockerops.go:110-111 | the last two tokens are exactly `nanos:latest`, `/app/ops` |
| `DockerOps.EnvArgsAreEnvFlags` | cmd/dockerops/dockerops.go:98 | every token in the environment block begins with `-e ` |
| `DockerOps.EnvArgsAt` | cmd/dockerops/dockerops.go:92-99 | a kept entry at index `i` is token number (kept entries before `i`) of the environment block |
| `DockerOps.KeptCountIncreases` | cmd/dockerops/dockerops.go:92-99 | a kept entry has a strictly smaller rank than every later entry, so kept entries get distinct, increasing slots |
| `DockerOps.EnvTokenPosition` | cmd/dockerops/dockerops.go:88-99 | a kept entry at index `i` appears as its `-e` token at position 3 + (kept entries before `i`), inside the environment block |
| `DockerOps.EnvTokensInOrder` | cmd/dockerops/dockerops.go:92-99 | for kept entries `i < j`, the token of `i` comes strictly before the token of `j` |
| `DockerOps.VolumeArgsAt` | cmd/dockerops/dockerops.go:100-106 | token `2k` of the mount block is `--mount` and token `2k+1` is the mount value of volume `k` |
| `DockerOps.VolumePairPosition` | cmd/dockerops/dockerops.go:100-106 | every volume `k`, blank or not, yields `--mount` at position 3 + K + 2k and its mount value right after it, where K is the number of kept env entries |
| `DockerOps.MountValueSpec` | cmd/dockerops/dockerops.go:101-105 | a mount value is `type=bind,source=L,target=C`, where L and C are the two paths trimmed |
| `DockerOps.BlankVolumeMounted` | cmd/dockerops/dockerops.go:100-106 | a volume whose two paths are blank still yields the mount value `type=bind,source=,target=` |
| `DockerOps.MountFlagPositions` | cmd/dockerops/dockerops.go:87-111 | a token equals `--mount` if and only if it is at an even offset of the mount block. So `--mount` never appears in the prefix, among the env tokens (all of which precede every mount), as a mount value, or in the suffix |
| `DockerOps.VolumeArgsIgnoreRw` | cmd/dockerops/dockerops.go:100-106 | two volume lists that agree on `local` and `container` give the same mount tokens |
| `DockerOps.DockerArgsIgnoreRw` | cmd/dockerops/dockerops.go:24-28 | two configurations that differ only in the volumes' `rw` flags give identical argument lists |
| `DockerOps.ExampleEnvArgs` | cmd/dockerops/dockerops.go:92-99 | `[(" A ", "1"), ("B", "  ")]` gives exactly `["-e A=1"]` |
| `DockerOps.ExampleVolumeArgs` | cmd/dockerops/dockerops.go:100-106 | `[(" /a ", "/b\t"), (" ", "")]` gives the pairs for `/a`→`/b` and for the empty paths |
| `DockerOps.ExampleArgs` | cmd/dockerops/dockerops.go:87-111 | the full ten-token list for that configuration |

## Left out

- Command-line parsing with `go-arg` (cmd/dockerops/dockerops.go:52-57). It is a foreign library. `BuildDockerArgs` does not read `Call`; the Go `main` does not use it either.
- Executable-path discovery, the default `dockerops.yml` path and `path.Clean` (cmd/dockerops/dockerops.go:59-70). These are operating-system and library calls.
- `exists`/`os.Stat` and the exit with status 1 when the configuration file is missing (cmd/dockerops/dockerops.go:39-48, 72-76). This is filesystem I/O.
- `os.ReadFile` and `yaml.Unmarshal` (cmd/dockerops/dockerops.go:78-85). This is file I/O and foreign deserialization. `BuildDockerArgs` takes the resulting `Parameters` value as its input.
- `exec.Command("docker", ...)`, the stdout/stderr wiring, printing of the command, `cmd.Run` and `log.Fatalf` (cmd/dockerops/dockerops.go:118-127). These spawn a process and do I/O.
- The capacity hint passed to `make` (cmd/dockerops/dockerops.go:87). It affects allocation only, not the contents of the list.
- cmd/dockerops.go. It is a stub `main` with no argument-assembly logic.
- Merging command-line `-e` overrides into the environment, and joining positional call arguments into one token. Neither exists in the modelled code.
- Byte strings: Go strings are byte strings, but here they are sequences of Unicode code points. Invalid UTF-8 bytes, which Go's `TrimSpace` keeps as non-space, are therefore not modelled.
