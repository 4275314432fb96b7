/** The platform identifier Blender extensions are named after
    (`get_platform_string`). The host's `platform.system()` and
    `platform.machine()` are parameters. */
module Platform {
  import opened Strings

  const Unsupported: string := "unsupported"

  /** `get_platform_string(connector)` once the host has been queried. */
  function PlatformString(system: string, machine: string, connector: string): string {
    if system == "Linux" && machine == "x86_64" then "linux" + connector + "x64"
    else if system == "Darwin" then
      (if machine == "x86_64" then "macos" + connector + "x64" else "macos" + connector + "arm64")
    else if system in ["Windows", "Microsoft"] then "windows" + connector + "x64"
    else Unsupported
  }

  /** The host combinations that have a Blender platform name. */
  predicate Recognised(system: string, machine: string) {
    || (system == "Linux" && machine == "x86_64")
    || system == "Darwin"
    || system == "Windows"
    || system == "Microsoft"
  }

  /** The mapping table, including the fall-through for every other host. */
  lemma PlatformStringCases(system: string, machine: string, c: string)
    ensures system == "Linux" && machine == "x86_64" ==> PlatformString(system, machine, c) == "linux" + c + "x64"
    ensures system == "Darwin" && machine == "x86_64" ==> PlatformString(system, machine, c) == "macos" + c + "x64"
    ensures system == "Darwin" && machine != "x86_64" ==> PlatformString(system, machine, c) == "macos" + c + "arm64"
    ensures system in {"Windows", "Microsoft"} ==> PlatformString(system, machine, c) == "windows" + c + "x64"
    ensures system == "Linux" && machine != "x86_64" ==> PlatformString(system, machine, c) == Unsupported
  {
  }

  /** A platform name is produced exactly for the recognised hosts: no
      supported name, whatever the connector, spells "unsupported". */
  lemma {:induction false} SupportedIff(system: string, machine: string, c: string)
    ensures PlatformString(system, machine, c) != Unsupported <==> Recognised(system, machine)
  {
    var r := PlatformString(system, machine, c);
    if Recognised(system, machine) {
      assert r[0] != Unsupported[0];
    }
  }

  /** For the two connectors the script uses, the connector occurs in the
      result exactly when the host is supported; "unsupported" holds neither. */
  lemma {:induction false} ConnectorIff(system: string, machine: string, c: string)
    requires c == "-" || c == "_"
    ensures Contains(PlatformString(system, machine, c), c) <==> Recognised(system, machine)
  {
    var r := PlatformString(system, machine, c);
    ContainsChar(r, c[0]);
    assert [c[0]] == c;
    if Recognised(system, machine) {
      assert r[5] == c[0] || r[7] == c[0];
    } else {
      assert r == Unsupported;
      assert c[0] !in Unsupported;
    }
  }
}
