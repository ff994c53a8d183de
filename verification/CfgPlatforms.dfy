/** The leaf table checked against platforms: where the GN condition of a cfg leaf is true exactly when the leaf is. */
module CfgPlatforms {
  import opened Wrappers
  import opened CfgParsing
  import opened CfgRender
  import G = GnLanguage

  /** Values of `current_os`. */
  datatype Os = Win | Mac | Ios | Watchos | Android | Fuchsia | Emscripten | Linux | Chromeos

  /** Values of `current_cpu`. */
  datatype Cpu = X86 | X64 | Arm | Arm64 | Arm64e | Mipsel | Mips64el | S390x | Ppc64 | Riscv64 | Loong64 | Wasm

  function CpuName(cpu: Cpu): string {
    match cpu
    case X86 => "x86" case X64 => "x64" case Arm => "arm" case Arm64 => "arm64" case Arm64e => "arm64e"
    case Mipsel => "mipsel" case Mips64el => "mips64el" case S390x => "s390x" case Ppc64 => "ppc64"
    case Riscv64 => "riscv64" case Loong64 => "loong64" case Wasm => "wasm"
  }

  /** The GN scope of a platform. */
  function Scope(os: Os, cpu: Cpu): G.Scope {
    map[
      "is_win" := G.Bool(os.Win?), "is_mac" := G.Bool(os.Mac?), "is_ios" := G.Bool(os.Ios?),
      "is_watchos" := G.Bool(os.Watchos?), "is_android" := G.Bool(os.Android?), "is_fuchsia" := G.Bool(os.Fuchsia?),
      "is_wasm" := G.Bool(os.Emscripten?), "is_linux" := G.Bool(os.Linux?), "is_chromeos" := G.Bool(os.Chromeos?),
      "current_cpu" := G.Chars(CpuName(cpu))
    ]
  }

  /** `target_os` of the Rust target built for the platform; ChromeOS builds for Linux. */
  function RustOs(os: Os): string {
    match os
    case Win => "windows" case Mac => "macos" case Ios => "ios" case Watchos => "watchos" case Android => "android"
    case Fuchsia => "fuchsia" case Emscripten => "emscripten" case Linux => "linux" case Chromeos => "linux"
  }

  /** `target_arch` of the Rust target; arm64e is an aarch64 target. */
  function RustArch(cpu: Cpu): string {
    match cpu
    case X86 => "x86" case X64 => "x86_64" case Arm => "arm" case Arm64 => "aarch64" case Arm64e => "aarch64"
    case Mipsel => "mips" case Mips64el => "mips64" case S390x => "s390x" case Ppc64 => "powerpc64"
    case Riscv64 => "riscv64" case Loong64 => "loongarch64" case Wasm => "wasm32"
  }

  function RustWidth(cpu: Cpu): string {
    if cpu.X86? || cpu.Arm? || cpu.Mipsel? || cpu.Wasm? then "32" else "64"
  }

  /** Truth of a cfg leaf for the Rust target of the platform; only `msvc` and `apple` are told apart. */
  predicate TargetHolds(os: Os, cpu: Cpu, e: CfgExpr) {
    match e
    case Flag(name) => name == "windows" && os.Win?
    case Value(key, value) =>
      || (key == "target_os" && value == RustOs(os))
      || (key == "target_arch" && value == RustArch(cpu))
      || (key == "target_pointer_width" && value == RustWidth(cpu))
      || (key == "target_env" && value == "msvc" && os.Win?)
      || (key == "target_vendor" && value == "apple" && (os.Mac? || os.Ios? || os.Watchos?))
    case _ => false
  }

  /** The leaves whose GN condition is wrong on the platform. */
  predicate Misrendered(os: Os, cpu: Cpu, e: CfgExpr) {
    || (cpu.Wasm? && e == Value("target_pointer_width", "32"))
    || (os.Watchos? && e == Value("target_vendor", "apple"))
    || (cpu.Arm64e? && e == Value("target_arch", "aarch64"))
  }

  /** The truth of every leaf on the platform. */
  function LeavesOn(os: Os, cpu: Cpu): CfgExpr -> bool {
    e => TargetHolds(os, cpu, e)
  }

  /** The value GN computes for the condition of a supported leaf. */
  ghost predicate GnValueIs(os: Os, cpu: Cpu, e: CfgExpr, b: bool)
    requires (e.Flag? || e.Value?) && LeafShape(e).Some?
  {
    G.Eval(ShapeExpr(LeafShape(e).value), Scope(os, cpu)) == Some(G.Bool(b))
  }

  lemma OsTable(os: Os, cpu: Cpu, value: string)
    requires value != "linux" && OsCondition(value).Some?
    ensures OsCondition(value).value in Scope(os, cpu)
    ensures Scope(os, cpu)[OsCondition(value).value] == G.Bool(value == RustOs(os))
  {
  }

  lemma OsMeans(os: Os, cpu: Cpu, value: string)
    requires OsCondition(value).Some?
    ensures GnValueIs(os, cpu, Value("target_os", value), value == RustOs(os))
  {
    if value == "linux" {
      EitherMeans("is_linux", "is_chromeos", os.Linux?, os.Chromeos?, Scope(os, cpu));
      assert value == RustOs(os) <==> os.Linux? || os.Chromeos?;
    } else {
      OsTable(os, cpu, value);
    }
  }

  lemma EitherMeans(a: string, b: string, x: bool, y: bool, scope: G.Scope)
    requires a in scope && scope[a] == G.Bool(x) && b in scope && scope[b] == G.Bool(y)
    ensures G.Eval(ShapeExpr(Group(OrOp, More(Named(a), One(Named(b))))), scope) == Some(G.Bool(x || y))
  {
    assert ShapeExpr(Named(a)) == G.Var(a) && ShapeExpr(Named(b)) == G.Var(b);
    assert PartsExpr(OrOp, One(Named(b))) == G.Var(b);
  }

  lemma {:induction false} CpuPartsMean(cpus: seq<string>, cpu: Cpu, scope: G.Scope)
    requires cpus != [] && "current_cpu" in scope && scope["current_cpu"] == G.Chars(CpuName(cpu))
    ensures G.Eval(PartsExpr(OrOp, CpuParts(cpus)), scope) == Some(G.Bool(CpuName(cpu) in cpus))
  {
    var first := CfgRender.Cpu(cpus[0]);
    assert G.Eval(G.Var("current_cpu"), scope) == Some(G.Chars(CpuName(cpu)));
    assert G.Eval(ShapeExpr(first), scope) == Some(G.Bool(CpuName(cpu) == cpus[0]));
    if |cpus| > 1 {
      CpuPartsMean(cpus[1..], cpu, scope);
      assert CpuName(cpu) in cpus <==> CpuName(cpu) == cpus[0] || CpuName(cpu) in cpus[1..];
    }
  }

  lemma ScopeCpu(os: Os, cpu: Cpu)
    ensures "current_cpu" in Scope(os, cpu) && Scope(os, cpu)["current_cpu"] == G.Chars(CpuName(cpu))
  {
  }

  lemma WidthShape(value: string)
    requires WidthCpus(value).Some?
    ensures WidthCpus(value).value != []
    ensures LeafShape(Value("target_pointer_width", value)) == Some(Group(OrOp, CpuParts(WidthCpus(value).value)))
  {
    hide CpuParts;
  }

  lemma WidthMeans(os: Os, cpu: Cpu, value: string)
    requires WidthCpus(value).Some?
    ensures GnValueIs(os, cpu, Value("target_pointer_width", value), CpuName(cpu) in WidthCpus(value).value)
  {
    hide CpuName, LeafShape, WidthCpus, Scope, CpuParts, G.Eval;
    ScopeCpu(os, cpu);
    WidthShape(value);
    CpuPartsMean(WidthCpus(value).value, cpu, Scope(os, cpu));
  }

  lemma WidthTable(cpu: Cpu, value: string)
    requires WidthCpus(value).Some?
    ensures (CpuName(cpu) in WidthCpus(value).value) == (value == RustWidth(cpu)) <==> !(cpu.Wasm? && value == "32")
  {
    var narrow, wide := WidthCpus("32").value, WidthCpus("64").value;
    assert narrow[0] == "x86" && narrow[1] == "arm" && narrow[2] == "mipsel";
    assert wide[0] == "x64" && wide[1] == "arm64" && wide[2] == "arm64e" && wide[3] == "mips64el";
    assert wide[4] == "s390x" && wide[5] == "ppc64" && wide[6] == "riscv64" && wide[7] == "loong64";
  }

  lemma ArchMeans(os: Os, cpu: Cpu, value: string)
    requires ArchCpu(value).Some?
    ensures GnValueIs(os, cpu, Value("target_arch", value), CpuName(cpu) == ArchCpu(value).value)
  {
    assert G.Eval(G.Var("current_cpu"), Scope(os, cpu)) == Some(G.Chars(CpuName(cpu)));
  }

  lemma ArchTable(cpu: Cpu, value: string)
    requires ArchCpu(value).Some?
    ensures (CpuName(cpu) == ArchCpu(value).value) == (value == RustArch(cpu)) <==> !(cpu.Arm64e? && value == "aarch64")
  {
  }

  ghost predicate Exact(os: Os, cpu: Cpu, e: CfgExpr)
    requires (e.Flag? || e.Value?)
  {
    LeafAgrees(e, LeavesOn(os, cpu), Scope(os, cpu)) <==> !Misrendered(os, cpu, e)
  }

  lemma ExactFromValue(os: Os, cpu: Cpu, e: CfgExpr, b: bool)
    requires (e.Flag? || e.Value?) && LeafShape(e).Some? && GnValueIs(os, cpu, e, b)
    requires b == TargetHolds(os, cpu, e) <==> !Misrendered(os, cpu, e)
    ensures Exact(os, cpu, e)
  {
  }

  lemma OsExact(os: Os, cpu: Cpu, value: string)
    requires OsCondition(value).Some?
    ensures Exact(os, cpu, Value("target_os", value))
  {
    OsMeans(os, cpu, value);
  }

  /** What the leaf asks of the platform. */
  lemma ArchLeaf(os: Os, cpu: Cpu, value: string)
    requires ArchCpu(value).Some?
    ensures LeafShape(Value("target_arch", value)).Some?
    ensures TargetHolds(os, cpu, Value("target_arch", value)) == (value == RustArch(cpu))
    ensures Misrendered(os, cpu, Value("target_arch", value)) == (cpu.Arm64e? && value == "aarch64")
  {
    hide RustArch, CpuName;
  }

  lemma ArchExact(os: Os, cpu: Cpu, value: string)
    requires ArchCpu(value).Some?
    ensures Exact(os, cpu, Value("target_arch", value))
  {
    hide RustArch, ArchCpu, CpuName, Exact, GnValueIs, TargetHolds, Misrendered, LeafShape;
    ArchLeaf(os, cpu, value);
    ArchMeans(os, cpu, value);
    ArchTable(cpu, value);
    ExactFromValue(os, cpu, Value("target_arch", value), CpuName(cpu) == ArchCpu(value).value);
  }

  lemma WidthExact(os: Os, cpu: Cpu, value: string)
    requires WidthCpus(value).Some?
    ensures Exact(os, cpu, Value("target_pointer_width", value))
  {
    WidthMeans(os, cpu, value);
    WidthTable(cpu, value);
    WidthLeaf(os, cpu, value);
    ExactFromValue(os, cpu, Value("target_pointer_width", value), CpuName(cpu) in WidthCpus(value).value);
  }

  lemma WidthLeaf(os: Os, cpu: Cpu, value: string)
    ensures var e := Value("target_pointer_width", value);
            TargetHolds(os, cpu, e) == (value == RustWidth(cpu)) &&
                Misrendered(os, cpu, e) == (cpu.Wasm? && value == "32")
  {
  }

  lemma VendorMeans(os: Os, cpu: Cpu)
    ensures LeafShape(Value("target_vendor", "apple")).Some?
    ensures GnValueIs(os, cpu, Value("target_vendor", "apple"), os.Mac? || os.Ios?)
  {
    EitherMeans("is_mac", "is_ios", os.Mac?, os.Ios?, Scope(os, cpu));
  }

  lemma VendorTable(os: Os, cpu: Cpu)
    ensures var e := Value("target_vendor", "apple");
            TargetHolds(os, cpu, e) == (os.Mac? || os.Ios?) <==> !Misrendered(os, cpu, e)
  {
  }

  lemma VendorExact(os: Os, cpu: Cpu)
    ensures Exact(os, cpu, Value("target_vendor", "apple"))
  {
    VendorMeans(os, cpu);
    VendorTable(os, cpu);
  }

  /** On every platform, a supported leaf is translated truthfully exactly when it is not one of three misrendered
      pairs. */
  lemma LeafTableExact(os: Os, cpu: Cpu, e: CfgExpr)
    requires (e.Flag? || e.Value?) && LeafShape(e).Some?
    ensures LeafAgrees(e, LeavesOn(os, cpu), Scope(os, cpu)) <==> !Misrendered(os, cpu, e)
  {
    assert Exact(os, cpu, e) by {
      if e.Value? {
        if e.key == "target_os" {
          OsExact(os, cpu, e.value);
        } else if e.key == "target_arch" {
          ArchExact(os, cpu, e.value);
        } else if e.key == "target_pointer_width" {
          WidthExact(os, cpu, e.value);
        } else if e.key == "target_vendor" {
          VendorExact(os, cpu);
        }
      }
    }
  }

  // ----- which leaves are supported -----

  /** The leaf holds on some platform. */
  ghost predicate HoldsSomewhere(e: CfgExpr) {
    exists os, cpu :: TargetHolds(os, cpu, e)
  }

  lemma OsSupported(value: string)
    ensures OsCondition(value).Some? <==> exists os :: RustOs(os) == value
  {
    if OsCondition(value).Some? {
      var os := if value == "windows" then Win else if value == "macos" then Mac else if value == "ios" then Ios
        else if value == "watchos" then Watchos else if value == "android" then Android
        else if value == "fuchsia" then Fuchsia else if value == "emscripten" then Emscripten else Linux;
      assert RustOs(os) == value;
    }
  }

  lemma ArchSupported(value: string)
    ensures ArchCpu(value).Some? <==> exists cpu :: RustArch(cpu) == value
  {
    if ArchCpu(value).Some? {
      var cpu := if value == "x86" then X86 else if value == "x86_64" then X64 else if value == "arm" then Arm
        else if value == "aarch64" then Arm64 else if value == "mips" then Mipsel
        else if value == "mips64" then Mips64el else if value == "s390x" then S390x
        else if value == "powerpc64" then Ppc64 else if value == "riscv64" then Riscv64
        else if value == "loongarch64" then Loong64 else Wasm;
      assert RustArch(cpu) == value;
    }
  }

  lemma WidthSupported(value: string)
    ensures WidthCpus(value).Some? <==> exists cpu :: RustWidth(cpu) == value
  {
    assert RustWidth(X86) == "32" && RustWidth(X64) == "64";
  }

  /** Where a leaf with this key and value holds. */
  lemma SomewhereByKey(key: string, value: string)
    ensures key == "target_os" ==> (HoldsSomewhere(Value(key, value)) <==> exists os :: RustOs(os) == value)
    ensures key == "target_arch" ==> (HoldsSomewhere(Value(key, value)) <==> exists cpu :: RustArch(cpu) == value)
    ensures key == "target_pointer_width" ==>
              (HoldsSomewhere(Value(key, value)) <==> exists cpu :: RustWidth(cpu) == value)
    ensures key == "target_env" ==> (HoldsSomewhere(Value(key, value)) <==> value == "msvc")
    ensures key == "target_vendor" ==> (HoldsSomewhere(Value(key, value)) <==> value == "apple")
    ensures key !in {"target_os", "target_arch", "target_pointer_width", "target_env", "target_vendor"} ==>
              !HoldsSomewhere(Value(key, value))
  {
    hide RustOs, RustArch, RustWidth;
    if os :| RustOs(os) == value {
      assert key == "target_os" ==> TargetHolds(os, X86, Value(key, value));
    }
    if cpu :| RustArch(cpu) == value {
      assert key == "target_arch" ==> TargetHolds(Win, cpu, Value(key, value));
    }
    if cpu :| RustWidth(cpu) == value {
      assert key == "target_pointer_width" ==> TargetHolds(Win, cpu, Value(key, value));
    }
    assert key == "target_env" && value == "msvc" ==> TargetHolds(Win, X86, Value(key, value));
    assert key == "target_vendor" && value == "apple" ==> TargetHolds(Mac, X86, Value(key, value));
  }

  /** A leaf is supported exactly when it holds on some platform. */
  lemma SupportedLeaf(e: CfgExpr)
    requires e.Flag? || e.Value?
    ensures LeafShape(e).Some? <==> HoldsSomewhere(e)
  {
    if e.Flag? {
      assert e.name == "windows" ==> TargetHolds(Win, X86, e);
    } else {
      hide OsCondition, ArchCpu, WidthCpus, HoldsSomewhere, CpuParts;
      OsSupported(e.value);
      ArchSupported(e.value);
      WidthSupported(e.value);
      SomewhereByKey(e.key, e.value);
      assert OsCondition("linux").Some? by {
        assert RustOs(Linux) == "linux";
        OsSupported("linux");
      }
    }
  }

  /** Every leaf of the expression holds on some platform. */
  ghost predicate LeavesKnown(e: CfgExpr) {
    match e
    case Flag(_) => HoldsSomewhere(e)
    case Value(_, _) => HoldsSomewhere(e)
    case All(arguments) => forall a :: a in arguments ==> LeavesKnown(a)
    case Any(arguments) => forall a :: a in arguments ==> LeavesKnown(a)
    case Not(argument) => LeavesKnown(argument)
  }

  lemma {:induction false} SupportedExpression(e: CfgExpr)
    requires HasArguments(e)
    ensures ShapeOf(e).Some? <==> LeavesKnown(e)
    decreases e, 1
  {
    hide HoldsSomewhere, LeafShape;
    match e
    case Flag(_) => SupportedLeaf(e);
    case Value(_, _) => SupportedLeaf(e);
    case All(arguments) => SupportedParts(arguments);
    case Any(arguments) => SupportedParts(arguments);
    case Not(argument) => SupportedExpression(argument);
  }

  lemma {:induction false} SupportedParts(arguments: seq<CfgExpr>)
    requires arguments != [] && forall a :: a in arguments ==> HasArguments(a)
    ensures PartsOf(arguments).Some? <==> forall a :: a in arguments ==> LeavesKnown(a)
    decreases arguments, 0
  {
    hide HoldsSomewhere, LeafShape;
    SupportedExpression(arguments[0]);
    if |arguments| > 1 {
      assert forall a :: a in arguments <==> a == arguments[0] || a in arguments[1..];
      SupportedParts(arguments[1..]);
    }
  }

  predicate NoneMisrendered(os: Os, cpu: Cpu, e: CfgExpr) {
    match e
    case Flag(_) => true
    case Value(_, _) => !Misrendered(os, cpu, e)
    case All(arguments) => forall a :: a in arguments ==> NoneMisrendered(os, cpu, a)
    case Any(arguments) => forall a :: a in arguments ==> NoneMisrendered(os, cpu, a)
    case Not(argument) => NoneMisrendered(os, cpu, argument)
  }

  /** An expression without misrendered leaves agrees leaf by leaf with its platform, so its translation is exact
      there. */
  lemma {:induction false} PlatformLeavesAgree(os: Os, cpu: Cpu, e: CfgExpr)
    requires NoneMisrendered(os, cpu, e)
    ensures LeavesAgree(e, LeavesOn(os, cpu), Scope(os, cpu))
    decreases e
  {
    match e
    case Flag(_) => LeafAgreesOn(os, cpu, e);
    case Value(_, _) => LeafAgreesOn(os, cpu, e);
    case All(arguments) =>
      forall a | a in arguments ensures LeavesAgree(a, LeavesOn(os, cpu), Scope(os, cpu)) {
        PlatformLeavesAgree(os, cpu, a);
      }
    case Any(arguments) =>
      forall a | a in arguments ensures LeavesAgree(a, LeavesOn(os, cpu), Scope(os, cpu)) {
        PlatformLeavesAgree(os, cpu, a);
      }
    case Not(argument) => PlatformLeavesAgree(os, cpu, argument);
  }

  lemma LeafAgreesOn(os: Os, cpu: Cpu, e: CfgExpr)
    requires (e.Flag? || e.Value?) && !Misrendered(os, cpu, e)
    ensures LeafAgrees(e, LeavesOn(os, cpu), Scope(os, cpu))
  {
    if LeafShape(e).Some? {
      LeafTableExact(os, cpu, e);
    }
  }
}
