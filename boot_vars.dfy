/** The GRUB variables `handle` writes: the module-level `DEFAULT_BOOT_VARS`
    dictionary, rewritten in place for a serial console. */
module BootVars {
  import opened OrderedDict

  /** The four `vyos_install/boot_params/...` settings `handle` reads. */
  datatype BootParams = BootParams(
    consoleType: string,
    serialConsoleNum: string,
    serialConsoleSpeed: string,
    cmdlineExtra: string)

  /** The initial contents of `DEFAULT_BOOT_VARS`, in insertion order. */
  const DefaultBootVars: Dict<string> := [
    ("timeout", "5"),
    ("console_type", "tty"),
    ("console_num", "0"),
    ("console_speed", "115200"),
    ("bootmode", "normal")
  ]

  /** `get_cfg_by_path(cfg, path, default)`, with the cloud-config flattened
      to a map from slash-separated path to value. */
  function CfgByPath(cfg: map<string, string>, path: string, default: string): (r: string)
    ensures path in cfg ==> r == cfg[path]
    ensures path !in cfg ==> r == default
  {
    if path in cfg then cfg[path] else default
  }

  /** The `boot_params` dictionary of `handle`. */
  function ResolveBootParams(cfg: map<string, string>): (r: BootParams)
    ensures "vyos_install/boot_params/console_type" !in cfg ==> r.consoleType == "kvm"
    ensures "vyos_install/boot_params/serial_console_num" !in cfg ==> r.serialConsoleNum == "0"
    ensures "vyos_install/boot_params/serial_console_speed" !in cfg ==> r.serialConsoleSpeed == "9600"
    ensures "vyos_install/boot_params/cmdline_extra" !in cfg ==> r.cmdlineExtra == ""
    ensures "vyos_install/boot_params/serial_console_num" in cfg ==>
      r.serialConsoleNum == cfg["vyos_install/boot_params/serial_console_num"]
    ensures "vyos_install/boot_params/serial_console_speed" in cfg ==>
      r.serialConsoleSpeed == cfg["vyos_install/boot_params/serial_console_speed"]
    ensures "vyos_install/boot_params/cmdline_extra" in cfg ==>
      r.cmdlineExtra == cfg["vyos_install/boot_params/cmdline_extra"]
  {
    BootParams(
      CfgByPath(cfg, "vyos_install/boot_params/console_type", "kvm"),
      CfgByPath(cfg, "vyos_install/boot_params/serial_console_num", "0"),
      CfgByPath(cfg, "vyos_install/boot_params/serial_console_speed", "9600"),
      CfgByPath(cfg, "vyos_install/boot_params/cmdline_extra", ""))
  }

  /** Without any boot parameters in the configuration, `handle` uses the
      console type "kvm", serial console 0 at 9600 baud and no extra kernel
      command line; a value present in the configuration wins. */
  lemma ResolveBootParamsDefaults(cfg: map<string, string>)
    ensures ResolveBootParams(map[]) == BootParams("kvm", "0", "9600", "")
    ensures "vyos_install/boot_params/console_type" in cfg ==>
      ResolveBootParams(cfg).consoleType == cfg["vyos_install/boot_params/console_type"]
  {
  }

  /** The variables after the serial-console rewrite of `handle`, starting
      from `vars`. */
  function DerivedBootVars(vars: Dict<string>, params: BootParams): (r: Dict<string>)
    ensures Keys(vars) <= Keys(r) && |r| <= |vars| + 3
    ensures DistinctKeys(vars) ==> DistinctKeys(r)
  {
    if params.consoleType == "serial" then
      Update(Update(Update(vars, "console_type", "ttyS"),
        "console_num", params.serialConsoleNum),
        "console_speed", params.serialConsoleSpeed)
    else
      vars
  }

  /** A serial console sets the three console variables; any other console
      type changes nothing. */
  lemma DerivedBootVarsConsole(vars: Dict<string>, params: BootParams)
    ensures params.consoleType == "serial" ==>
      && Lookup(DerivedBootVars(vars, params), "console_type") == Some("ttyS")
      && Lookup(DerivedBootVars(vars, params), "console_num") == Some(params.serialConsoleNum)
      && Lookup(DerivedBootVars(vars, params), "console_speed") == Some(params.serialConsoleSpeed)
    ensures params.consoleType != "serial" ==> DerivedBootVars(vars, params) == vars
  {
  }

  /** Every variable other than the three console ones keeps its value
      (among them `timeout` and `bootmode`); a dictionary that already has
      the three console keys keeps its keys and their order. */
  lemma DerivedBootVarsKeepRest(vars: Dict<string>, params: BootParams, k: string)
    requires k != "console_type" && k != "console_num" && k != "console_speed"
    ensures Lookup(DerivedBootVars(vars, params), k) == Lookup(vars, k)
    ensures "console_type" in Keys(vars) && "console_num" in Keys(vars) && "console_speed" in Keys(vars) ==>
      Keys(DerivedBootVars(vars, params)) == Keys(vars)
  {
  }

  /** On a table whose first four keys are those of the defaults, the
      serial rewrite replaces entries 1 to 3 where they stand. */
  lemma ConsoleRewrite(d: Dict<string>, params: BootParams)
    requires params.consoleType == "serial"
    requires |d| == 5 && d[0].0 == "timeout" && d[1].0 == "console_type"
    requires d[2].0 == "console_num" && d[3].0 == "console_speed"
    ensures DerivedBootVars(d, params) == d[1 := ("console_type", "ttyS")]
      [2 := ("console_num", params.serialConsoleNum)]
      [3 := ("console_speed", params.serialConsoleSpeed)]
  {
    var d1 := d[1 := ("console_type", "ttyS")];
    var d2 := d1[2 := ("console_num", params.serialConsoleNum)];
    UpdateAt(d, "console_type", "ttyS", 1);
    UpdateAt(d1, "console_num", params.serialConsoleNum, 2);
    UpdateAt(d2, "console_speed", params.serialConsoleSpeed, 3);
  }

  /** `DEFAULT_BOOT_VARS` is laid out as `ConsoleRewrite` requires, with
      the values of the module's table. */
  lemma DefaultBootVarsLayout()
    ensures |DefaultBootVars| == 5
    ensures Keys(DefaultBootVars) == ["timeout", "console_type", "console_num", "console_speed", "bootmode"]
    ensures Lookup(DefaultBootVars, "timeout") == Some("5")
    ensures Lookup(DefaultBootVars, "bootmode") == Some("normal")
  {
    assert Keys(DefaultBootVars) == ["timeout", "console_type", "console_num", "console_speed", "bootmode"];
    IndexOfIs(Keys(DefaultBootVars), "timeout", 0);
    IndexOfIs(Keys(DefaultBootVars), "bootmode", 4);
  }

  /** A mutable `dict[str, str]`. */
  class BootVarTable {
    var items: Dict<string>

    /** The module-level `DEFAULT_BOOT_VARS` as the module is loaded. */
    constructor Defaults()
      ensures items == DefaultBootVars
    {
      items := DefaultBootVars;
    }

    /** `self[key] = value`. */
    method Set(key: string, value: string)
      modifies this
      ensures items == Update(old(items), key, value)
    {
      items := Update(items, key, value);
    }
  }

  /** `boot_vars = DEFAULT_BOOT_VARS` and the serial-console rewrite:
      `boot_vars` is the module-level object itself, so the rewrite changes
      it for every later reader. */
  method DeriveBootVars(defaults: BootVarTable, params: BootParams) returns (bootVars: BootVarTable)
    modifies defaults
    ensures bootVars == defaults
    ensures bootVars.items == DerivedBootVars(old(defaults.items), params)
  {
    bootVars := defaults;
    if params.consoleType == "serial" {
      bootVars.Set("console_type", "ttyS");
      bootVars.Set("console_num", params.serialConsoleNum);
      bootVars.Set("console_speed", params.serialConsoleSpeed);
    }
  }

  /** Because the rewrite is done on the shared dictionary, a second
      derivation in the same process, for a console that is not serial,
      still carries the serial console type of the first, although the
      module's initial table says "tty". */
  lemma SharedDefaultsStayRewritten(vars: Dict<string>, serial: BootParams, other: BootParams)
    requires serial.consoleType == "serial" && other.consoleType != "serial"
    ensures Lookup(DerivedBootVars(DerivedBootVars(vars, serial), other), "console_type") == Some("ttyS")
  {
    var v1 := Update(vars, "console_type", "ttyS");
    var v2 := Update(v1, "console_num", serial.serialConsoleNum);
    assert Lookup(v2, "console_type") == Lookup(v1, "console_type");
  }
}
