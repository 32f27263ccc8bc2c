/** The operations behind write tools, and how the root helper and the tools name them to the confirmation store
    (broker/helper.py, policy/rules.py, server.py). */
module Operations {
  import opened Prelude

  /** Every operation that has a policy key, under its name in the root helper; the last three are confirmed by the
      frontend alone. */
  datatype Name =
    | AppUpgrade | AppRemove | AppChangeUrl | AppConfigSet | AppSettingSet | AppInstall | SafeUpgrade
    | BackupCreate | BackupDelete | BackupRestore | SystemUpgrade | SystemReboot | SystemShutdown | MigrationsRun
    | FirewallOpen | FirewallClose | FirewallReload
    | UserCreate | UserUpdate | UserDelete | GroupCreate | GroupUpdate | GroupDelete
    | PermissionAdd | PermissionRemove | PermissionUpdate
    | DomainAdd | DomainCertInstall | DomainDnsPush | DomainRemove
    | ServiceRestart | ServiceStop | SettingsSet | RegenconfApply | CatalogPublish
    | PackageRunTests | PackageInstallTest | PackageUpgradeTest | PackageBackupTest | PackageRestoreTest
    | PackageChangeUrlTest | PackageRemoveTest
    | ServiceStart | AuditList | AuditGet
    | Unlisted(name: string)

  /** An operation with the arguments of its request, the confirmation identifier aside. */
  datatype Operation = Operation(name: Name, arguments: Dict)

  /** A call of the adapter: what is really done. */
  datatype Effect = Effect(call: string, arguments: Dict)

  datatype Rule = Rule(
    requireConfirmation: bool,
    requireOwnerSignature: bool,
    requireBackup: bool,
    minimumFreeBytes: Option<nat>,
    maxBackupAge: Option<nat>)

  /** What the hard policy checks read of the host, and when. */
  datatype Host = Host(freeBytes: int, backups: map<string, real>, checkedAt: real)

  /** Some archive, hence the newest, is young enough. */
  predicate RecentBackup(rule: Rule, host: Host) {
    rule.requireBackup ==>
      && host.backups != map[]
      && (rule.maxBackupAge.None?
          || exists name :: name in host.backups && host.checkedAt - host.backups[name] <= rule.maxBackupAge.value as real)
  }

  /** `check_free_space` and `check_recent_backup`; a safe upgrade makes its own backup. */
  predicate HardPolicyHolds(rule: Rule, name: Name, host: Host) {
    && (rule.minimumFreeBytes.None? || host.freeBytes >= rule.minimumFreeBytes.value)
    && (name.SafeUpgrade? || RecentBackup(rule, host))
  }

  /** There is no archive, or only ones that are older than the rule allows. */
  ghost predicate NoRecentArchive(rule: Rule, host: Host) {
    forall archive :: archive in host.backups ==>
      rule.maxBackupAge.Some? && host.checkedAt - host.backups[archive] > rule.maxBackupAge.value as real
  }

  /** The hard checks fail exactly for too little free space, or, unless this is a safe upgrade, for want of the recent
      archive that the rule asks for. */
  lemma HardPolicyFailsIff(rule: Rule, name: Name, host: Host)
    ensures !HardPolicyHolds(rule, name, host) <==>
            || (rule.minimumFreeBytes.Some? && host.freeBytes < rule.minimumFreeBytes.value)
            || (rule.requireBackup && name != SafeUpgrade && NoRecentArchive(rule, host))
  {
    if host.backups == map[] {
      assert NoRecentArchive(rule, host);
    } else {
      var archive :| archive in host.backups;
      assert rule.maxBackupAge.None? ==> !NoRecentArchive(rule, host);
    }
  }

  /** The tables of a deployment. The root helper names an operation by `helperKey` and the arguments listed in
      `argumentNames`, and `invoke` is the adapter call it makes, unless it refuses the arguments. A tool names its call by
      `toolKey` and its keyword arguments, and `promised` is the adapter call it stands for. */
  datatype Catalog = Catalog(
    rules: string -> Option<Rule>,
    helperKey: Operation -> Option<string>,
    argumentNames: Name -> Option<seq<string>>,
    invoke: Operation -> Option<Effect>,
    toolKey: Operation -> string,
    toolArguments: Operation -> Dict,
    promised: Operation -> Effect)

  function Chosen(arguments: Dict, names: seq<string>): Dict {
    map name | name in names :: Get(arguments, name)
  }

  /** The arguments that the helper binds to a confirmation. */
  function HelperArguments(catalog: Catalog, operation: Operation): Option<Dict> {
    var names := catalog.argumentNames(operation.name);
    if names.None? then None else Some(Chosen(operation.arguments, names.value))
  }

  /** A missing rule asks for nothing. */
  const NO_RULE := Rule(false, false, false, None, None)

  function ToolRule(catalog: Catalog, operation: Operation): Rule {
    var rule := catalog.rules(catalog.toolKey(operation));
    if rule.Some? then rule.value else NO_RULE
  }

  /** The helper takes a ticket issued for `asked` as one for `done`, and carries `done` out. */
  predicate HelperTakes(catalog: Catalog, asked: Operation, done: Operation) {
    && ToolRule(catalog, asked).requireConfirmation
    && catalog.helperKey(done) == Some(catalog.toolKey(asked))
    && HelperArguments(catalog, done) == Some(catalog.toolArguments(asked))
    && catalog.invoke(done).Some?
  }

  /** And so does the frontend itself, where it does not defer to the helper. */
  predicate ToolTakes(catalog: Catalog, asked: Operation, done: Operation) {
    && ToolRule(catalog, asked).requireConfirmation
    && catalog.toolKey(done) == catalog.toolKey(asked) && catalog.toolArguments(done) == catalog.toolArguments(asked)
  }
}
