/** The configuration records the core reads (`internal/config`). Durations are
    nanosecond counts, as Go's `time.Duration` is. */
module Config {

  /** One external hook. */
  datatype HookConfig = HookConfig(
    name: string,
    command: string,
    args: seq<string>,
    tools: seq<string>,
    paths: seq<string>,
    matchCommand: string,
    timeout: int,
    onError: string)

  datatype ToolsConfig = ToolsConfig(allow: seq<string>, block: seq<string>)

  datatype CommandsConfig = CommandsConfig(block: seq<string>)

  /** Which configurable rules are switched on. */
  datatype RulesConfig = RulesConfig(
    workspace: bool,
    scope: bool,
    versioning: bool,
    incremental: bool,
    invariants: bool)

  datatype ScopeConfig = ScopeConfig(allow: seq<string>, block: seq<string>)

  datatype CoexistenceCheck = CoexistenceCheck(name: string, ifGlob: string, require: string, message: string)

  datatype ContentCheck = ContentCheck(name: string, paths: seq<string>, forbid: string, require: string, message: string)

  datatype ImportCheck = ImportCheck(name: string, paths: seq<string>, forbid: string, message: string)

  datatype NamingCheck = NamingCheck(name: string, paths: seq<string>, pattern: string, message: string)

  datatype RequiredCheck = RequiredCheck(name: string, dirs: string, when: string, require: string, message: string)

  datatype InvariantsConfig = InvariantsConfig(
    coexistence: seq<CoexistenceCheck>,
    content: seq<ContentCheck>,
    imports: seq<ImportCheck>,
    naming: seq<NamingCheck>,
    required: seq<RequiredCheck>)

  /** `InvariantsConfig{}`: every check list empty. */
  const NoInvariants: InvariantsConfig := InvariantsConfig([], [], [], [], [])

  datatype ReminderConfig = ReminderConfig(name: string, everyTasks: int, everyMinutes: int, message: string)

  /** The parts of `config.Config` the evaluator reads. */
  datatype Config = Config(
    tools: ToolsConfig,
    commands: CommandsConfig,
    rules: RulesConfig,
    scope: ScopeConfig,
    invariants: InvariantsConfig,
    hooks: seq<HookConfig>)
}
