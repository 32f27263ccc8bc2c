/** The policy keys and the bound arguments of every operation, in the root helper and in the tools, and which operations
    they do not tell apart (broker/helper.py, policy/rules.py, server.py). */
module PolicyTables {
  import opened Prelude
  import opened Operations
  import opened Confirmations
  import opened BrokerSteps
  import opened BrokerRuns
  import opened TicketRuns

  datatype Key =
    | AppsUpgrade | ControlPlaneUpgrade | AppsRemove | ControlPlaneRemove | AppsChangeUrl | ControlPlaneChangeUrl
    | AppsConfig | ControlPlaneConfig | AppsSetting | ControlPlaneSetting | AppsInstall | ControlPlaneInstall
    | BackupsCreate | BackupsDelete | BackupsRestore | SystemUpgrades | SystemPower | SystemMigrate | FirewallWrite
    | UsersWrite | UsersAdminAccess | UsersDelete | UsersPermissions | DomainsWrite | DomainsCert | DomainsDns
    | DomainsRemove | ServicesRestart | ServicesStop | ServicesStart | SettingsWrite | RegenconfWrite
    | CatalogPublishing | PackagesTest | AuditRead

  datatype Parameter =
    | App | Force | Url | Purge | Domain | Path | KeyName | Value | Delete | Label | Args | ItemName | Description | Apps
    | Parts | Targets | Skip | Auto | ForceRerun | AcceptDisclaimer | SkipPostmigrations | Port | Protocol | Comment
    | Upnp | NoReload | UpnpOnly | SkipUpnp | Username | Password | Fullname | MailboxQuota | Admin | Mail
    | ChangePassword | AddMailforward | RemoveMailforward | AddMailalias | RemoveMailalias | Groupname | Add | Remove
    | Permission | Names | ShowTile | Protected | InstallLetsencryptCert | Letsencrypt | Staging | RemoveApps
    | PlanId | Source | AppId | SessionId | ArchiveName | Limit | AuditId

  /** How keys and parameters are written; different ones differently. */
  datatype Spelling = Spelling(key: Key -> string, parameter: Parameter -> string)

  ghost predicate Distinct(spelling: Spelling) {
    Injective(spelling.key) && Injective(spelling.parameter)
  }

  // ---------------------------------------------------------------------
  // The tables

  const CONTROL_PLANE_APP: string := "yunohost_mcp"

  predicate Contains(text: string, part: string) {
    exists i :: 0 <= i <= |text| && part <= text[i..]
  }

  /** The policy key of an operation, which for some operations depends on its arguments. */
  function PolicyKey(spelling: Spelling, name: Name, arguments: Dict): Option<Key> {
    var app := Get(arguments, spelling.parameter(App));
    var isControlPlane := app == Str(CONTROL_PLANE_APP);
    match name
    case AppUpgrade => Some(if isControlPlane || app.Null? then ControlPlaneUpgrade else AppsUpgrade)
    case SafeUpgrade => Some(if isControlPlane || app.Null? then ControlPlaneUpgrade else AppsUpgrade)
    case AppRemove => Some(if isControlPlane then ControlPlaneRemove else AppsRemove)
    case AppChangeUrl => Some(if isControlPlane then ControlPlaneChangeUrl else AppsChangeUrl)
    case AppConfigSet => Some(if isControlPlane then ControlPlaneConfig else AppsConfig)
    case AppSettingSet => Some(if isControlPlane then ControlPlaneSetting else AppsSetting)
    case AppInstall =>
      Some(if isControlPlane || (app.Str? && Contains(app.s, CONTROL_PLANE_APP)) then ControlPlaneInstall else AppsInstall)
    case BackupCreate => Some(BackupsCreate)
    case BackupDelete => Some(BackupsDelete)
    case BackupRestore => Some(BackupsRestore)
    case SystemUpgrade => Some(SystemUpgrades)
    case SystemReboot => Some(SystemPower)
    case SystemShutdown => Some(SystemPower)
    case MigrationsRun => Some(SystemMigrate)
    case FirewallOpen => Some(FirewallWrite)
    case FirewallClose => Some(FirewallWrite)
    case FirewallReload => Some(FirewallWrite)
    case UserCreate => Some(if Get(arguments, spelling.parameter(Admin)) == Bool(true) then UsersAdminAccess else UsersWrite)
    case UserUpdate => Some(UsersWrite)
    case UserDelete => Some(UsersDelete)
    case GroupCreate => Some(UsersWrite)
    case GroupUpdate =>
      Some(if Get(arguments, spelling.parameter(Groupname)) == Str("admins") then UsersAdminAccess else UsersWrite)
    case GroupDelete => Some(UsersDelete)
    case PermissionAdd => Some(UsersPermissions)
    case PermissionRemove => Some(UsersPermissions)
    case PermissionUpdate => Some(UsersPermissions)
    case DomainAdd => Some(DomainsWrite)
    case DomainCertInstall => Some(DomainsCert)
    case DomainDnsPush => Some(DomainsDns)
    case DomainRemove => Some(DomainsRemove)
    case ServiceRestart => Some(ServicesRestart)
    case ServiceStop => Some(ServicesStop)
    case SettingsSet => Some(SettingsWrite)
    case RegenconfApply => Some(RegenconfWrite)
    case CatalogPublish => Some(CatalogPublishing)
    case PackageRunTests => Some(PackagesTest)
    case PackageInstallTest => Some(PackagesTest)
    case PackageUpgradeTest => Some(PackagesTest)
    case PackageBackupTest => Some(PackagesTest)
    case PackageRestoreTest => Some(PackagesTest)
    case PackageChangeUrlTest => Some(PackagesTest)
    case PackageRemoveTest => Some(PackagesTest)
    case ServiceStart => Some(ServicesStart)
    case AuditList => Some(AuditRead)
    case AuditGet => Some(AuditRead)
    case Unlisted(_) => None
  }

  /** The arguments bound to a confirmation. */
  function Parameters(name: Name): seq<Parameter> {
    match name
    case AppUpgrade => [App, Force, Url]
    case SafeUpgrade => [App]
    case AppRemove => [App, Purge]
    case AppChangeUrl => [App, Domain, Path]
    case AppConfigSet => [App, KeyName, Value]
    case AppSettingSet => [App, KeyName, Value, Delete]
    case AppInstall => [App, Label, Args, Force]
    case BackupCreate => [ItemName, Description, Apps, Parts]
    case BackupDelete => [ItemName]
    case BackupRestore => [ItemName, Apps, Parts, Force]
    case SystemUpgrade => []
    case SystemReboot => []
    case SystemShutdown => []
    case MigrationsRun => [Targets, Skip, Auto, ForceRerun, AcceptDisclaimer, SkipPostmigrations]
    case FirewallOpen => [Port, Protocol, Comment, Upnp, NoReload]
    case FirewallClose => [Port, Protocol, UpnpOnly, NoReload]
    case FirewallReload => [SkipUpnp]
    case UserCreate => [Username, Domain, Password, Fullname, MailboxQuota, Admin]
    case UserUpdate =>
      [Username, Mail, ChangePassword, AddMailforward, RemoveMailforward, AddMailalias, RemoveMailalias, MailboxQuota, Fullname]
    case UserDelete => [Username, Purge]
    case GroupCreate => [Groupname]
    case GroupUpdate => [Groupname, Add, Remove]
    case GroupDelete => [Groupname]
    case PermissionAdd => [Permission, Names]
    case PermissionRemove => [Permission, Names]
    case PermissionUpdate => [Permission, Label, ShowTile, Protected]
    case DomainAdd => [Domain, InstallLetsencryptCert]
    case DomainCertInstall => [Domain, Letsencrypt, Staging]
    case DomainDnsPush => [Domain, Force, Purge]
    case DomainRemove => [Domain, RemoveApps, Force]
    case ServiceRestart => [Names]
    case ServiceStop => [Names]
    case SettingsSet => [KeyName, Value]
    case RegenconfApply => [Names, Force]
    case CatalogPublish => [PlanId]
    case PackageRunTests => [Source, AppId]
    case PackageInstallTest => [Source, SessionId, Label, Args]
    case PackageUpgradeTest => [App, Source, SessionId]
    case PackageBackupTest => [App, SessionId]
    case PackageRestoreTest => [App, ArchiveName, SessionId]
    case PackageChangeUrlTest => [App, Domain, Path, SessionId]
    case PackageRemoveTest => [App, Purge, SessionId]
    case ServiceStart => [Names]
    case AuditList => [Limit]
    case AuditGet => [AuditId]
    case Unlisted(_) => []
  }

  /** The helper's tables do not have these. */
  predicate FrontendOnly(name: Name) {
    name.ServiceStart? || name.AuditList? || name.AuditGet? || name.Unlisted?
  }

  function Spelled(spelling: Spelling, parameters: seq<Parameter>): seq<string> {
    seq(|parameters|, i requires 0 <= i < |parameters| => spelling.parameter(parameters[i]))
  }

  predicate HelperHas(catalog: Catalog, spelling: Spelling, o: Operation) {
    if FrontendOnly(o.name) then catalog.helperKey(o) == None && catalog.argumentNames(o.name) == None
    else
      && PolicyKey(spelling, o.name, o.arguments).Some?
      && catalog.helperKey(o) == Some(spelling.key(PolicyKey(spelling, o.name, o.arguments).value))
      && catalog.argumentNames(o.name) == Some(Spelled(spelling, Parameters(o.name)))
  }

  /** The tool of an operation has the same key function, and the same parameters, all of which it passes on. */
  ghost predicate ToolHas(catalog: Catalog, spelling: Spelling, o: Operation) {
    var key := PolicyKey(spelling, o.name, catalog.toolArguments(o));
    if key.None? then !ToolRule(catalog, o).requireConfirmation
    else
      && catalog.toolKey(o) == spelling.key(key.value)
      && forall k :: k in catalog.toolArguments(o) <==> k in Spelled(spelling, Parameters(o.name))
  }

  /** The tables of the code, with any rules, and with any effects of the operations. */
  ghost predicate HasTables(catalog: Catalog, spelling: Spelling) {
    Distinct(spelling) && forall o :: HelperHas(catalog, spelling, o) && ToolHas(catalog, spelling, o)
  }

  // ---------------------------------------------------------------------
  // What the tables tell apart

  /** Reboot and shutdown look the same, and so do granting and revoking a permission. */
  function Seen(name: Name): Name {
    match name
    case SystemShutdown => SystemReboot
    case PermissionRemove => PermissionAdd
    case _ => name
  }

  predicate SameOrPaired(a: Name, b: Name) {
    || a == b
    || (a.SystemReboot? && b.SystemShutdown?) || (a.SystemShutdown? && b.SystemReboot?)
    || (a.PermissionAdd? && b.PermissionRemove?) || (a.PermissionRemove? && b.PermissionAdd?)
  }

  /** The operation, as far as key and parameters show it. */
  function Recognized(key: Key, ps: seq<Parameter>): Name {
    match key
    case AppsUpgrade => if Force in ps then AppUpgrade else SafeUpgrade
    case ControlPlaneUpgrade => if Force in ps then AppUpgrade else SafeUpgrade
    case AppsRemove => AppRemove
    case ControlPlaneRemove => AppRemove
    case AppsChangeUrl => AppChangeUrl
    case ControlPlaneChangeUrl => AppChangeUrl
    case AppsConfig => AppConfigSet
    case ControlPlaneConfig => AppConfigSet
    case AppsSetting => AppSettingSet
    case ControlPlaneSetting => AppSettingSet
    case AppsInstall => AppInstall
    case ControlPlaneInstall => AppInstall
    case BackupsCreate => BackupCreate
    case BackupsDelete => BackupDelete
    case BackupsRestore => BackupRestore
    case SystemUpgrades => SystemUpgrade
    case SystemPower => SystemReboot
    case SystemMigrate => MigrationsRun
    case FirewallWrite => if SkipUpnp in ps then FirewallReload else if UpnpOnly in ps then FirewallClose else FirewallOpen
    case UsersWrite => RecognizedUser(ps)
    case UsersAdminAccess => RecognizedUser(ps)
    case UsersDelete => if Username in ps then UserDelete else GroupDelete
    case UsersPermissions => if Names in ps then PermissionAdd else PermissionUpdate
    case DomainsWrite => DomainAdd
    case DomainsCert => DomainCertInstall
    case DomainsDns => DomainDnsPush
    case DomainsRemove => DomainRemove
    case ServicesRestart => ServiceRestart
    case ServicesStop => ServiceStop
    case ServicesStart => ServiceStart
    case SettingsWrite => SettingsSet
    case RegenconfWrite => RegenconfApply
    case CatalogPublishing => CatalogPublish
    case PackagesTest => RecognizedPackageTest(ps)
    case AuditRead => if Limit in ps then AuditList else AuditGet
  }

  function RecognizedUser(ps: seq<Parameter>): Name {
    if Username in ps then if Domain in ps then UserCreate else UserUpdate
    else if Add in ps then GroupUpdate else GroupCreate
  }

  function RecognizedPackageTest(ps: seq<Parameter>): Name {
    if AppId in ps then PackageRunTests
    else if Label in ps then PackageInstallTest
    else if Source in ps then PackageUpgradeTest
    else if ArchiveName in ps then PackageRestoreTest
    else if Domain in ps then PackageChangeUrlTest
    else if Purge in ps then PackageRemoveTest
    else PackageBackupTest
  }

  predicate IsApp(name: Name) {
    || name.AppUpgrade? || name.AppRemove? || name.AppChangeUrl? || name.AppConfigSet?
    || name.AppSettingSet? || name.AppInstall? || name.SafeUpgrade?
  }

  lemma AppIsRecognized(spelling: Spelling, name: Name, arguments: Dict)
    requires IsApp(name)
    ensures PolicyKey(spelling, name, arguments).Some?
    ensures Recognized(PolicyKey(spelling, name, arguments).value, Parameters(name)) == Seen(name)
  {
  }

  predicate IsSystem(name: Name) {
    || name.BackupCreate? || name.BackupDelete? || name.BackupRestore? || name.SystemUpgrade?
    || name.SystemReboot? || name.SystemShutdown? || name.MigrationsRun? || name.FirewallOpen?
    || name.FirewallClose? || name.FirewallReload?
  }

  lemma SystemIsRecognized(spelling: Spelling, name: Name, arguments: Dict)
    requires IsSystem(name)
    ensures PolicyKey(spelling, name, arguments).Some?
    ensures Recognized(PolicyKey(spelling, name, arguments).value, Parameters(name)) == Seen(name)
  {
  }

  predicate IsUser(name: Name) {
    name.UserCreate? || name.UserUpdate? || name.UserDelete?
  }

  lemma UserIsRecognized(spelling: Spelling, name: Name, arguments: Dict)
    requires IsUser(name)
    ensures PolicyKey(spelling, name, arguments).Some?
    ensures Recognized(PolicyKey(spelling, name, arguments).value, Parameters(name)) == Seen(name)
  {
  }

  predicate IsGroup(name: Name) {
    name.GroupCreate? || name.GroupUpdate? || name.GroupDelete?
  }

  lemma GroupIsRecognized(spelling: Spelling, name: Name, arguments: Dict)
    requires IsGroup(name)
    ensures PolicyKey(spelling, name, arguments).Some?
    ensures Recognized(PolicyKey(spelling, name, arguments).value, Parameters(name)) == Seen(name)
  {
  }

  predicate IsAccess(name: Name) {
    || name.PermissionAdd? || name.PermissionRemove? || name.PermissionUpdate? || name.DomainAdd?
    || name.DomainCertInstall? || name.DomainDnsPush? || name.DomainRemove?
  }

  lemma AccessIsRecognized(spelling: Spelling, name: Name, arguments: Dict)
    requires IsAccess(name)
    ensures PolicyKey(spelling, name, arguments).Some?
    ensures Recognized(PolicyKey(spelling, name, arguments).value, Parameters(name)) == Seen(name)
  {
  }

  predicate IsService(name: Name) {
    name.ServiceRestart? || name.ServiceStop? || name.ServiceStart? || name.CatalogPublish?
  }

  lemma ServiceIsRecognized(spelling: Spelling, name: Name, arguments: Dict)
    requires IsService(name)
    ensures PolicyKey(spelling, name, arguments).Some?
    ensures Recognized(PolicyKey(spelling, name, arguments).value, Parameters(name)) == Seen(name)
  {
  }

  predicate IsSetting(name: Name) {
    name.SettingsSet? || name.RegenconfApply? || name.AuditList? || name.AuditGet?
  }

  lemma SettingIsRecognized(spelling: Spelling, name: Name, arguments: Dict)
    requires IsSetting(name)
    ensures PolicyKey(spelling, name, arguments).Some?
    ensures Recognized(PolicyKey(spelling, name, arguments).value, Parameters(name)) == Seen(name)
  {
  }

  predicate IsPackageInstall(name: Name) {
    name.PackageRunTests? || name.PackageInstallTest? || name.PackageUpgradeTest?
  }

  lemma PackageInstallIsRecognized(spelling: Spelling, name: Name, arguments: Dict)
    requires IsPackageInstall(name)
    ensures PolicyKey(spelling, name, arguments).Some?
    ensures Recognized(PolicyKey(spelling, name, arguments).value, Parameters(name)) == Seen(name)
  {
  }

  predicate IsPackageTest(name: Name) {
    name.PackageBackupTest? || name.PackageRestoreTest? || name.PackageChangeUrlTest? || name.PackageRemoveTest?
  }

  lemma PackageTestIsRecognized(spelling: Spelling, name: Name, arguments: Dict)
    requires IsPackageTest(name)
    ensures PolicyKey(spelling, name, arguments).Some?
    ensures Recognized(PolicyKey(spelling, name, arguments).value, Parameters(name)) == Seen(name)
  {
  }

  lemma EveryOperationIsRecognized(spelling: Spelling, name: Name, arguments: Dict)
    requires PolicyKey(spelling, name, arguments).Some?
    ensures Recognized(PolicyKey(spelling, name, arguments).value, Parameters(name)) == Seen(name)
  {
    if IsApp(name) {
      AppIsRecognized(spelling, name, arguments);
    } else if IsSystem(name) {
      SystemIsRecognized(spelling, name, arguments);
    } else if IsUser(name) {
      UserIsRecognized(spelling, name, arguments);
    } else if IsGroup(name) {
      GroupIsRecognized(spelling, name, arguments);
    } else if IsAccess(name) {
      AccessIsRecognized(spelling, name, arguments);
    } else if IsService(name) {
      ServiceIsRecognized(spelling, name, arguments);
    } else if IsSetting(name) {
      SettingIsRecognized(spelling, name, arguments);
    } else if IsPackageInstall(name) {
      PackageInstallIsRecognized(spelling, name, arguments);
    } else {
      PackageTestIsRecognized(spelling, name, arguments);
    }
  }

  lemma RecognizedBySet(key: Key, ps: seq<Parameter>, qs: seq<Parameter>)
    requires forall p :: p in ps <==> p in qs
    ensures Recognized(key, ps) == Recognized(key, qs)
  {
    assert RecognizedUser(ps) == RecognizedUser(qs);
    assert RecognizedPackageTest(ps) == RecognizedPackageTest(qs);
  }

  lemma SpelledIsInjective(spelling: Spelling, ps: seq<Parameter>, p: Parameter)
    requires Distinct(spelling)
    ensures spelling.parameter(p) in Spelled(spelling, ps) <==> p in ps
  {
    if spelling.parameter(p) in Spelled(spelling, ps) {
      var i :| 0 <= i < |ps| && Spelled(spelling, ps)[i] == spelling.parameter(p);
      assert ps[i] == p;
    }
    if p in ps {
      var i :| 0 <= i < |ps| && ps[i] == p;
      assert Spelled(spelling, ps)[i] == spelling.parameter(p);
    }
  }

  /** Equal keys and equal sets of spelled parameters are of operations that look the same. */
  lemma SameBindingSameSight(
    spelling: Spelling, a: Name, x: Dict, b: Name, y: Dict)
    requires Distinct(spelling)
    requires PolicyKey(spelling, a, x).Some? && PolicyKey(spelling, a, x) == PolicyKey(spelling, b, y)
    requires forall k :: k in Spelled(spelling, Parameters(a)) <==> k in Spelled(spelling, Parameters(b))
    ensures SameOrPaired(a, b)
  {
    forall p ensures p in Parameters(a) <==> p in Parameters(b) {
      SpelledIsInjective(spelling, Parameters(a), p);
      SpelledIsInjective(spelling, Parameters(b), p);
    }
    RecognizedBySet(PolicyKey(spelling, a, x).value, Parameters(a), Parameters(b));
    EveryOperationIsRecognized(spelling, a, x);
    EveryOperationIsRecognized(spelling, b, y);
    assert Seen(a) == Seen(b);
  }

  /** Whatever the helper takes a ticket for is the operation the ticket was asked for, or its counterpart. */
  lemma HelperTakesCounterpart(catalog: Catalog, spelling: Spelling, asked: Operation, done: Operation)
    requires HasTables(catalog, spelling) && HelperTakes(catalog, asked, done)
    ensures SameOrPaired(asked.name, done.name)
  {
    assert HelperHas(catalog, spelling, done) && ToolHas(catalog, spelling, asked);
    SameBindingSameSight(spelling, asked.name, catalog.toolArguments(asked), done.name, done.arguments);
  }

  lemma ToolTakesCounterpart(catalog: Catalog, spelling: Spelling, asked: Operation, done: Operation)
    requires HasTables(catalog, spelling) && ToolTakes(catalog, asked, done)
    ensures SameOrPaired(asked.name, done.name)
  {
    assert ToolHas(catalog, spelling, done) && ToolHas(catalog, spelling, asked);
    assert ToolRule(catalog, done) == ToolRule(catalog, asked);
    SameBindingSameSight(
      spelling, asked.name, catalog.toolArguments(asked), done.name, catalog.toolArguments(done));
  }

  /** In every run of a deployment with the tables of the code, what is carried out on a ticket bears the name of what the
      ticket was asked for, except that reboot and shutdown, and granting and revoking a permission, pass for one
      another. */
  lemma {:induction false} OnlyTwoPairsAreConfused(config: Config, spelling: Spelling, events: seq<Event>, i: nat)
    requires Injective(config.settings.digest) && OneMode(config) && HasTables(config.catalog, spelling)
    requires Legal(config, INITIAL, events) && i < |Reached(config, INITIAL, events).runs|
    ensures var s := Reached(config, INITIAL, events);
            s.runs[i].id in s.asked && SameOrPaired(s.asked[s.runs[i].id].name, s.runs[i].operation.name)
  {
    var s := Reached(config, INITIAL, events);
    RunsAreTakenFor(config, events, i);
    var asked, done := s.asked[s.runs[i].id], s.runs[i].operation;
    if s.runs[i].brokered {
      HelperTakesCounterpart(config.catalog, spelling, asked, done);
    } else {
      ToolTakesCounterpart(config.catalog, spelling, asked, done);
    }
  }

  // ---------------------------------------------------------------------
  // What the tables do not tell apart

  /** Two operations with one unconditional key and the same parameters are taken for one another, if the helper can carry
      out the second with the arguments given for the first. */
  lemma CounterpartIsTaken(catalog: Catalog, spelling: Spelling, asked: Operation, done: Operation)
    requires HasTables(catalog, spelling) && ToolRule(catalog, asked).requireConfirmation
    requires Parameters(asked.name) == Parameters(done.name) && !FrontendOnly(done.name)
    requires PolicyKey(spelling, asked.name, catalog.toolArguments(asked)) == PolicyKey(spelling, done.name, done.arguments)
    requires done.arguments == catalog.toolArguments(asked) && catalog.invoke(done).Some?
    ensures HelperTakes(catalog, asked, done)
  {
    assert HelperHas(catalog, spelling, done) && ToolHas(catalog, spelling, asked);
    assert Chosen(done.arguments, Spelled(spelling, Parameters(done.name))) == done.arguments;
  }

  /** The owner signs a reboot, and the machine is shut down, for good: the helper accepts the shutdown with the same
      ticket, carries it out as co-signed and reports success. */
  lemma SignedRebootShutsDown(config: Config, spelling: Spelling, reboot: Operation) returns (events: seq<Event>, i: nat)
    requires HasTables(config.catalog, spelling) && OwnerCanSign(config) && reboot.name.SystemReboot?
    requires spelling.key(SystemPower) in config.brokered
    requires config.catalog.rules(spelling.key(SystemPower)).Some?
    requires var rule := config.catalog.rules(spelling.key(SystemPower)).value;
             rule.requireConfirmation && rule.requireOwnerSignature
    requires config.catalog.invoke(Operation(SystemShutdown, config.catalog.toolArguments(reboot))).Some?
    ensures Legal(config, INITIAL, events)
    ensures var s := Reached(config, INITIAL, events);
            && i < |s.runs| && s.runs[i].id in s.asked && s.asked[s.runs[i].id] == reboot
            && s.runs[i].operation.name == SystemShutdown && s.runs[i].ownerChecked
            && exists t :: t in s.threads && s.threads[t].pc == Stopped(true)
  {
    var shutdown := Operation(SystemShutdown, config.catalog.toolArguments(reboot));
    assert ToolHas(config.catalog, spelling, reboot);
    CounterpartIsTaken(config.catalog, spelling, reboot, shutdown);
    events := HelperRunsAnother(config, reboot, shutdown);
    i := 0;
  }

  /** The owner signs the grant of a permission, and it is revoked. */
  lemma SignedGrantRevokes(config: Config, spelling: Spelling, grant: Operation) returns (events: seq<Event>, i: nat)
    requires HasTables(config.catalog, spelling) && OwnerCanSign(config) && grant.name.PermissionAdd?
    requires spelling.key(UsersPermissions) in config.brokered
    requires config.catalog.rules(spelling.key(UsersPermissions)).Some?
    requires var rule := config.catalog.rules(spelling.key(UsersPermissions)).value;
             rule.requireConfirmation && rule.requireOwnerSignature
    requires config.catalog.invoke(Operation(PermissionRemove, config.catalog.toolArguments(grant))).Some?
    ensures Legal(config, INITIAL, events)
    ensures var s := Reached(config, INITIAL, events);
            && i < |s.runs| && s.runs[i].id in s.asked && s.asked[s.runs[i].id] == grant
            && s.runs[i].operation.name == PermissionRemove && s.runs[i].ownerChecked
            && exists t :: t in s.threads && s.threads[t].pc == Stopped(true)
  {
    var revoke := Operation(PermissionRemove, config.catalog.toolArguments(grant));
    assert ToolHas(config.catalog, spelling, grant);
    CounterpartIsTaken(config.catalog, spelling, grant, revoke);
    events := HelperRunsAnother(config, grant, revoke);
    i := 0;
  }
}
