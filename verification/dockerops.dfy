/** The docker command line that dockerops assembles from its configuration:
    a fixed `run --platform linux/amd64` prefix, one `-e KEY=VAL` token per
    usable environment entry, a `--mount` pair per volume, and the fixed
    `nanos:latest /app/ops` suffix. */
module DockerOps {
  import opened GoStrings

  /** One bind mount from the configuration file. */
  datatype Volume = Volume(local: string, container: string, rw: bool)

  /** One environment variable from the configuration file. */
  datatype Env = Env(key: string, value: string)

  /** The whole configuration, in file order. */
  datatype Parameters = Parameters(volumes: seq<Volume>, env: seq<Env>)

  const Prefix: seq<string> := ["run", "--platform", "linux/amd64"]
  const Suffix: seq<string> := ["nanos:latest", "/app/ops"]
  const MountFlag: string := "--mount"

  /** The token for one environment variable, as `-e %s=%s` formats it. */
  function EnvFlag(key: string, value: string): string {
    "-e " + key + "=" + value
  }

  /** The value of a `--mount` flag, as `type=bind,source=%s,target=%s`
      formats it. */
  function MountSpec(local: string, container: string): string {
    "type=bind,source=" + local + ",target=" + container
  }

  /** An environment entry is passed on when neither its key nor its value
      is empty or whitespace only. */
  predicate Kept(e: Env) {
    !IsBlank(e.key) && !IsBlank(e.value)
  }

  /** How many entries of `envs` are passed on. */
  function KeptCount(envs: seq<Env>): nat {
    if envs == [] then 0 else (if Kept(envs[0]) then 1 else 0) + KeptCount(envs[1..])
  }

  // ---------------------------------------------------------------------
  // The argument list as a function of the configuration

  /** The tokens one environment entry contributes: the single `-e KEY=VAL`
      token built from the trimmed key and value, or nothing when either
      trims to the empty string. */
  function EnvTokens(e: Env): seq<string> {
    var key, val := TrimSpace(e.key), TrimSpace(e.value);
    if key == [] || val == [] then [] else [EnvFlag(key, val)]
  }

  /** The environment tokens of a whole list of entries, in list order. */
  function EnvArgs(envs: seq<Env>): seq<string> {
    if envs == [] then [] else EnvTokens(envs[0]) + EnvArgs(envs[1..])
  }

  /** The `--mount` value of one volume, built from its trimmed paths. */
  function MountValue(v: Volume): string {
    MountSpec(TrimSpace(v.local), TrimSpace(v.container))
  }

  /** The mount tokens of a whole list of volumes: a `--mount` pair for
      every volume, in list order. */
  function VolumeArgs(vols: seq<Volume>): (args: seq<string>)
    ensures |args| == 2 * |vols|
  {
    if vols == [] then [] else [MountFlag, MountValue(vols[0])] + VolumeArgs(vols[1..])
  }

  /** The argument list handed to `docker`. */
  function DockerArgs(p: Parameters): seq<string> {
    Prefix + EnvArgs(p.env) + VolumeArgs(p.volumes) + Suffix
  }

  // ---------------------------------------------------------------------
  // The assembly loop

  lemma {:induction false} EnvArgsSnoc(envs: seq<Env>, e: Env)
    ensures EnvArgs(envs + [e]) == EnvArgs(envs) + EnvTokens(e)
  {
    if envs != [] {
      assert (envs + [e])[1..] == envs[1..] + [e];
      EnvArgsSnoc(envs[1..], e);
    } else {
      assert [e][1..] == [];
    }
  }

  lemma {:induction false} VolumeArgsSnoc(vols: seq<Volume>, v: Volume)
    ensures VolumeArgs(vols + [v]) == VolumeArgs(vols) + [MountFlag, MountValue(v)]
  {
    if vols != [] {
      assert (vols + [v])[1..] == vols[1..] + [v];
      VolumeArgsSnoc(vols[1..], v);
    } else {
      assert [v][1..] == [];
    }
  }

  lemma TakeAll<T>(s: seq<T>)
    ensures s[..|s|] == s
  {
  }

  lemma AppendTwice<T>(s: seq<T>, t: seq<T>, x: T, y: T)
    ensures s + t + [x] + [y] == s + (t + [x, y])
  {
  }

  /** Appending the tokens of the entry at index `i` to an argument list
      that ends with the tokens of the entries before it. */
  lemma EnvArgsStep(done: seq<string>, envs: seq<Env>, i: nat)
    requires i < |envs|
    ensures done + EnvArgs(envs[..i]) + EnvTokens(envs[i]) == done + EnvArgs(envs[..i + 1])
  {
    assert envs[..i + 1] == envs[..i] + [envs[i]];
    EnvArgsSnoc(envs[..i], envs[i]);
  }

  /** Appending the `--mount` pair of the volume at index `i` to an argument
      list that ends with the pairs of the volumes before it. */
  lemma VolumeArgsStep(done: seq<string>, vols: seq<Volume>, i: nat)
    requires i < |vols|
    ensures done + VolumeArgs(vols[..i]) + [MountFlag] + [MountValue(vols[i])]
            == done + VolumeArgs(vols[..i + 1])
  {
    assert vols[..i + 1] == vols[..i] + [vols[i]];
    VolumeArgsSnoc(vols[..i], vols[i]);
    AppendTwice(done, VolumeArgs(vols[..i]), MountFlag, MountValue(vols[i]));
  }

  /** The assembly section of `main`: the argument list is grown by appending
      the prefix; then, for every environment entry whose trimmed key and
      value are both non-empty, its `-e KEY=VAL` token; then, for every
      volume, `--mount` and its `type=bind,...` value with no check on the
      trimmed paths; then the suffix. */
  method BuildDockerArgs(p: Parameters) returns (args: seq<string>)
    ensures args == DockerArgs(p)
  {
    args := [];
    args := args + ["run"];
    args := args + ["--platform"];
    args := args + ["linux/amd64"];
    assert args == Prefix;

    for i := 0 to |p.env|
      invariant args == Prefix + EnvArgs(p.env[..i])
    {
      EnvArgsStep(Prefix, p.env, i);
      var key, val := TrimSpace(p.env[i].key), TrimSpace(p.env[i].value);
      if key == [] || val == [] {
        continue;
      }
      args := args + [EnvFlag(key, val)];
    }
    TakeAll(p.env);

    ghost var head := args;
    for i := 0 to |p.volumes|
      invariant args == head + VolumeArgs(p.volumes[..i])
    {
      VolumeArgsStep(head, p.volumes, i);
      var local, container := TrimSpace(p.volumes[i].local), TrimSpace(p.volumes[i].container);
      args := args + [MountFlag];
      args := args + [MountSpec(local, container)];
    }
    TakeAll(p.volumes);

    ghost var body := args;
    args := args + ["nanos:latest"];
    args := args + ["/app/ops"];
    assert args == body + Suffix;
  }

  // ---------------------------------------------------------------------
  // Properties of the argument list

  /** An environment entry contributes nothing when its key or its value is
      blank, and otherwise exactly one token `-e K=V` whose K and V are its
      key and value trimmed: non-empty, with no whitespace at either end. */
  lemma EnvTokensSpec(e: Env)
    ensures !Kept(e) ==> EnvTokens(e) == []
    ensures Kept(e) ==> exists k, v :: k != [] && v != [] && IsTrimOf(e.key, k)
                            && IsTrimOf(e.value, v) && EnvTokens(e) == [EnvFlag(k, v)]
  {
    TrimSpaceEmptyIffBlank(e.key);
    TrimSpaceEmptyIffBlank(e.value);
    TrimSpaceIsTrim(e.key);
    TrimSpaceIsTrim(e.value);
  }

  lemma EnvTokensCount(e: Env)
    ensures |EnvTokens(e)| == if Kept(e) then 1 else 0
  {
    TrimSpaceEmptyIffBlank(e.key);
    TrimSpaceEmptyIffBlank(e.value);
  }

  /** One token per environment entry that is passed on. */
  lemma {:induction false} EnvArgsLength(envs: seq<Env>)
    ensures |EnvArgs(envs)| == KeptCount(envs)
  {
    if envs != [] {
      EnvTokensCount(envs[0]);
      EnvArgsLength(envs[1..]);
    }
  }

  /** |args| == 3 + (entries passed on) + 2 * (volumes) + 2. */
  lemma DockerArgsLength(p: Parameters)
    ensures |DockerArgs(p)| == 3 + KeptCount(p.env) + 2 * |p.volumes| + 2
  {
    EnvArgsLength(p.env);
  }

  /** The list always opens with `run --platform linux/amd64`. */
  lemma DockerArgsPrefix(p: Parameters)
    ensures |DockerArgs(p)| >= 5
    ensures DockerArgs(p)[..3] == ["run", "--platform", "linux/amd64"]
  {
    DockerArgsLength(p);
    assert DockerArgs(p) == Prefix + (EnvArgs(p.env) + VolumeArgs(p.volumes) + Suffix);
  }

  /** The list always closes with `nanos:latest /app/ops`. */
  lemma DockerArgsSuffix(p: Parameters)
    ensures |DockerArgs(p)| >= 5
    ensures DockerArgs(p)[|DockerArgs(p)| - 2..] == ["nanos:latest", "/app/ops"]
  {
    DockerArgsLength(p);
  }

  /** Every token the environment entries contribute begins with `-e `. */
  lemma {:induction false} EnvArgsAreEnvFlags(envs: seq<Env>)
    ensures forall n :: 0 <= n < |EnvArgs(envs)| ==> |EnvArgs(envs)[n]| >= 3 && EnvArgs(envs)[n][..3] == "-e "
  {
    if envs != [] {
      EnvArgsAreEnvFlags(envs[1..]);
      var e := envs[0];
      if EnvTokens(e) != [] {
        var t := EnvFlag(TrimSpace(e.key), TrimSpace(e.value));
        assert t[..3] == "-e ";
      }
    }
  }

  /** The entry at index `i` of `envs`, when passed on, is the token at
      position KeptCount(envs[..i]) of EnvArgs(envs). */
  lemma {:induction false} EnvArgsAt(envs: seq<Env>, i: nat)
    requires i < |envs| && Kept(envs[i])
    ensures KeptCount(envs[..i]) < KeptCount(envs)
    ensures |EnvArgs(envs)| == KeptCount(envs)
    ensures EnvArgs(envs)[KeptCount(envs[..i])]
            == EnvFlag(TrimSpace(envs[i].key), TrimSpace(envs[i].value))
  {
    EnvArgsLength(envs);
    EnvTokensCount(envs[0]);
    if i == 0 {
      assert envs[..0] == [];
    } else {
      assert envs[..i][1..] == envs[1..][..i - 1];
      EnvArgsAt(envs[1..], i - 1);
      EnvArgsLength(envs[1..]);
    }
  }

  /** Kept entries occupy strictly increasing ranks. */
  lemma {:induction false} KeptCountIncreases(envs: seq<Env>, i: nat, j: nat)
    requires i < j <= |envs| && Kept(envs[i])
    ensures KeptCount(envs[..i]) < KeptCount(envs[..j])
  {
    if i == 0 {
      assert envs[..j][0] == envs[0];
    } else {
      assert envs[..i][1..] == envs[1..][..i - 1];
      assert envs[..j][1..] == envs[1..][..j - 1];
      KeptCountIncreases(envs[1..], i - 1, j - 1);
    }
  }

  /** An environment entry that is passed on appears, as its `-e K=V`
      token, at position 3 + (number of entries before it that are passed
      on), inside the environment block that precedes every mount. */
  lemma EnvTokenPosition(p: Parameters, i: nat)
    requires i < |p.env| && Kept(p.env[i])
    ensures 3 + KeptCount(p.env[..i]) < 3 + KeptCount(p.env) <= |DockerArgs(p)|
    ensures DockerArgs(p)[3 + KeptCount(p.env[..i])]
            == EnvFlag(TrimSpace(p.env[i].key), TrimSpace(p.env[i].value))
  {
    EnvArgsAt(p.env, i);
    DockerArgsLength(p);
    assert DockerArgs(p) == Prefix + (EnvArgs(p.env) + (VolumeArgs(p.volumes) + Suffix));
  }

  /** The tokens of two entries that are passed on appear in the same
      relative order as the entries. */
  lemma EnvTokensInOrder(p: Parameters, i: nat, j: nat)
    requires i < j < |p.env| && Kept(p.env[i]) && Kept(p.env[j])
    ensures 3 + KeptCount(p.env[..i]) < 3 + KeptCount(p.env[..j]) < |DockerArgs(p)|
    ensures DockerArgs(p)[3 + KeptCount(p.env[..i])]
            == EnvFlag(TrimSpace(p.env[i].key), TrimSpace(p.env[i].value))
    ensures DockerArgs(p)[3 + KeptCount(p.env[..j])]
            == EnvFlag(TrimSpace(p.env[j].key), TrimSpace(p.env[j].value))
  {
    KeptCountIncreases(p.env, i, j);
    EnvTokenPosition(p, i);
    EnvTokenPosition(p, j);
  }

  /** In the mount block, token 2k is `--mount` and token 2k + 1 is the
      mount value of volume k. */
  lemma {:induction false} VolumeArgsAt(vols: seq<Volume>, k: nat)
    requires k < |vols|
    ensures VolumeArgs(vols)[2 * k] == MountFlag
    ensures VolumeArgs(vols)[2 * k + 1] == MountValue(vols[k])
  {
    if k > 0 {
      VolumeArgsAt(vols[1..], k - 1);
    }
  }

  /** Every volume, blank ones included, contributes the pair `--mount`,
      `type=bind,source=<local>,target=<container>` at positions
      3 + K + 2k and 3 + K + 2k + 1, K being the number of environment
      entries passed on. */
  lemma VolumePairPosition(p: Parameters, k: nat)
    requires k < |p.volumes|
    ensures 3 + KeptCount(p.env) + 2 * k + 1 < |DockerArgs(p)|
    ensures DockerArgs(p)[3 + KeptCount(p.env) + 2 * k] == "--mount"
    ensures DockerArgs(p)[3 + KeptCount(p.env) + 2 * k + 1] == MountValue(p.volumes[k])
  {
    EnvArgsLength(p.env);
    DockerArgsLength(p);
    VolumeArgsAt(p.volumes, k);
    assert DockerArgs(p) == (Prefix + EnvArgs(p.env)) + (VolumeArgs(p.volumes) + Suffix);
  }

  /** A mount value is `type=bind,source=L,target=C` with L and C the
      volume's paths trimmed; nothing is required of L and C beyond that. */
  lemma MountValueSpec(v: Volume)
    ensures exists l, c :: IsTrimOf(v.local, l) && IsTrimOf(v.container, c)
                           && MountValue(v) == MountSpec(l, c)
  {
    TrimSpaceIsTrim(v.local);
    TrimSpaceIsTrim(v.container);
  }

  /** A volume whose paths are both blank is not skipped: it still yields
      the mount value with empty source and target. */
  lemma BlankVolumeMounted(v: Volume)
    requires IsBlank(v.local) && IsBlank(v.container)
    ensures MountValue(v) == "type=bind,source=,target="
  {
    TrimSpaceEmptyIffBlank(v.local);
    TrimSpaceEmptyIffBlank(v.container);
  }

  /** `--mount` occurs exactly at the even offsets of the mount block: never
      in the prefix, among the environment tokens, as a mount value or in
      the suffix. */
  lemma MountFlagPositions(p: Parameters)
    ensures forall n :: 0 <= n < |DockerArgs(p)| ==>
      (DockerArgs(p)[n] == "--mount" <==>
        3 + KeptCount(p.env) <= n < 3 + KeptCount(p.env) + 2 * |p.volumes|
        && (n - 3 - KeptCount(p.env)) % 2 == 0)
  {
    var args := DockerArgs(p);
    var k := KeptCount(p.env);
    DockerArgsLength(p);
    EnvArgsLength(p.env);
    EnvArgsAreEnvFlags(p.env);
    assert args == Prefix + EnvArgs(p.env) + VolumeArgs(p.volumes) + Suffix;
    forall n | 0 <= n < |args|
      ensures args[n] == "--mount" <==> 3 + k <= n < 3 + k + 2 * |p.volumes| && (n - 3 - k) % 2 == 0
    {
      if n < 3 {
        assert args[n] == Prefix[n];
      } else if n < 3 + k {
        assert args[n] == EnvArgs(p.env)[n - 3];
        assert args[n][..3] == "-e ";
        assert "--mount"[..3] == "--m";
      } else if n < 3 + k + 2 * |p.volumes| {
        var m := n - 3 - k;
        assert args[n] == VolumeArgs(p.volumes)[m];
        VolumeArgsAt(p.volumes, m / 2);
        if m % 2 == 1 {
          var t := MountValue(p.volumes[m / 2]);
          assert t[0] == 't';
        }
      } else {
        assert args[n] == Suffix[n - 3 - k - 2 * |p.volumes|];
      }
    }
  }

  /** Volumes that differ only in their `rw` flags produce the same tokens. */
  lemma {:induction false} VolumeArgsIgnoreRw(vs: seq<Volume>, ws: seq<Volume>)
    requires |vs| == |ws|
    requires forall i :: 0 <= i < |vs| ==> vs[i].local == ws[i].local && vs[i].container == ws[i].container
    ensures VolumeArgs(vs) == VolumeArgs(ws)
  {
    if vs != [] {
      assert MountValue(vs[0]) == MountValue(ws[0]);
      VolumeArgsIgnoreRw(vs[1..], ws[1..]);
    }
  }

  /** The `rw` flag of a volume has no influence on the argument list. */
  lemma DockerArgsIgnoreRw(p: Parameters, q: Parameters)
    requires p.env == q.env && |p.volumes| == |q.volumes|
    requires forall i :: 0 <= i < |p.volumes| ==>
      p.volumes[i].local == q.volumes[i].local && p.volumes[i].container == q.volumes[i].container
    ensures DockerArgs(p) == DockerArgs(q)
  {
    VolumeArgsIgnoreRw(p.volumes, q.volumes);
  }

  /** Worked environment list: padding around a key is trimmed and an
      entry with a blank value is dropped. */
  lemma ExampleEnvArgs()
    ensures EnvArgs([Env(" A ", "1"), Env("B", "  ")]) == ["-e A=1"]
  {
    var envs := [Env(" A ", "1"), Env("B", "  ")];
    assert TrimSpace(" A ") == "A";
    assert TrimSpace("1") == "1";
    assert TrimSpace("  ") == "";
    assert EnvFlag("A", "1") == "-e A=1";
    assert EnvTokens(envs[0]) == ["-e A=1"];
    assert EnvTokens(envs[1]) == [];
    assert envs[1..][1..] == [];
  }

  /** Worked volume list: padding around a path is trimmed and a blank
      volume still yields a mount. */
  lemma ExampleVolumeArgs()
    ensures VolumeArgs([Volume(" /a ", "/b\t", true), Volume(" ", "", false)])
         == ["--mount", "type=bind,source=/a,target=/b", "--mount", "type=bind,source=,target="]
  {
    var vols := [Volume(" /a ", "/b\t", true), Volume(" ", "", false)];
    assert TrimSpace(" /a ") == "/a";
    assert TrimSpace("/b\t") == "/b";
    assert TrimSpace(" ") == "";
    assert TrimSpace("") == "";
    assert MountSpec("/a", "/b") == "type=bind,source=/a,target=/b";
    assert MountSpec("", "") == "type=bind,source=,target=";
    assert MountValue(vols[0]) == "type=bind,source=/a,target=/b";
    assert MountValue(vols[1]) == "type=bind,source=,target=";
    assert vols[1..][1..] == [];
  }

  /** The whole argument list for the worked configuration. */
  lemma ExampleArgs()
    ensures DockerArgs(Parameters([Volume(" /a ", "/b\t", true), Volume(" ", "", false)],
                                  [Env(" A ", "1"), Env("B", "  ")]))
         == ["run", "--platform", "linux/amd64", "-e A=1",
             "--mount", "type=bind,source=/a,target=/b",
             "--mount", "type=bind,source=,target=",
             "nanos:latest", "/app/ops"]
  {
    ExampleEnvArgs();
    ExampleVolumeArgs();
  }
}
