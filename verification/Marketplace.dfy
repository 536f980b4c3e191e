/** The marketplace handlers of the gateway. Two states change together: the entries the running
    loader holds and the entries of the profile file. The handlers install, toggle and uninstall
    plugins, and undo their own half-done work when npm, the loader or a write fails. */
module Marketplace {
  import opened Wrappers
  import opened InstallPlan

  datatype LoaderEntry = LoaderEntry(id: string, name: string, disabled: bool)

  datatype ProfileEntry = ProfileEntry(id: string, packageName: string, disabled: bool)

  datatype State = State(loader: seq<LoaderEntry>, profile: seq<ProfileEntry>)

  const MARKETPLACE_PREFIX := "marketplace-"
  const RUNTIME_ENTRY_NAME := "@pi-harness/core/plugins/runtime"

  function EntryId(plugin: Plugin): string {
    MARKETPLACE_PREFIX + plugin.id
  }

  /** The profile reader only sees entries whose id carries the marketplace prefix. */
  function ReadProfile(profile: seq<ProfileEntry>): seq<ProfileEntry> {
    Filter((entry: ProfileEntry) => MARKETPLACE_PREFIX < entry.id, profile)
  }

  function Configured(entries: seq<ProfileEntry>, packageName: string): Option<ProfileEntry> {
    Find((entry: ProfileEntry) => entry.packageName == packageName, entries)
  }

  function Loaded(loader: seq<LoaderEntry>, packageName: string): Option<LoaderEntry> {
    Find((entry: LoaderEntry) => entry.name == packageName, loader)
  }

  function PluginById(catalog: seq<Plugin>, id: string): Option<Plugin> {
    Find((plugin: Plugin) => plugin.id == id, catalog)
  }

  function PluginByPackage(catalog: seq<Plugin>, packageName: string): Option<Plugin> {
    Find((plugin: Plugin) => plugin.packageName == packageName, catalog)
  }

  // ----- the three package sets the handlers decide on

  function EnabledPackages(loader: seq<LoaderEntry>, entries: seq<ProfileEntry>): set<string> {
    var configuredPackages := set entry | entry in entries :: entry.packageName;
    (set entry | entry in entries && !entry.disabled :: entry.packageName)
    + (set entry | entry in loader && entry.name !in configuredPackages && !entry.disabled :: entry.name)
  }

  /** The last profile entry of a package decides, as it does in the lookup map of the source. */
  function LastConfigured(entries: seq<ProfileEntry>, packageName: string): (r: Option<ProfileEntry>)
    ensures r.None? ==> forall entry :: entry in entries ==> entry.packageName != packageName
    ensures r.Some? ==> r.value in entries && r.value.packageName == packageName
  {
    if entries == [] then None
    else if Last(entries).packageName == packageName then Some(Last(entries))
    else LastConfigured(entries[..|entries| - 1], packageName)
  }

  function ActivePackages(loader: seq<LoaderEntry>, entries: seq<ProfileEntry>): set<string> {
    set entry | entry in loader && !entry.disabled &&
                (LastConfigured(entries, entry.name).Some? ==> !LastConfigured(entries, entry.name).value.disabled)
              :: entry.name
  }

  function DependencyBlockers(catalog: seq<Plugin>, plugin: Plugin, packages: set<string>): seq<Plugin> {
    Filter((candidate: Plugin) => candidate.packageName in packages && plugin.id in candidate.dependencies, catalog)
  }

  // ----- edits of the profile, entry by entry

  /** The position of the first entry with this id, or the length when there is none. */
  function Position(profile: seq<ProfileEntry>, id: string): (i: nat)
    ensures i <= |profile|
    ensures i < |profile| ==> profile[i].id == id
    ensures forall j :: 0 <= j < i ==> profile[j].id != id
  {
    if profile == [] || profile[0].id == id then 0 else 1 + Position(profile[1..], id)
  }

  predicate HasId(profile: seq<ProfileEntry>, id: string) {
    Position(profile, id) < |profile|
  }

  function SetDisabled(profile: seq<ProfileEntry>, id: string, disabled: bool): seq<ProfileEntry>
    requires HasId(profile, id)
  {
    var i := Position(profile, id);
    profile[i := profile[i].(disabled := disabled)]
  }

  function RemoveEntry(profile: seq<ProfileEntry>, id: string): seq<ProfileEntry>
    requires HasId(profile, id)
  {
    var i := Position(profile, id);
    profile[..i] + profile[i + 1..]
  }

  /** An unknown or absent anchor appends at the end; a package that is already named is left alone. */
  function AppendEntry(profile: seq<ProfileEntry>, plugin: Plugin, anchor: Option<string>): seq<ProfileEntry> {
    if Configured(profile, plugin.packageName).Some? then profile
    else
      var i := if anchor.None? then |profile| else Position(profile, anchor.value);
      profile[..i] + [ProfileEntry(EntryId(plugin), plugin.packageName, false)] + profile[i..]
  }

  // ----- install

  function MissingFrom(s: State, plan: seq<Plugin>): seq<Plugin> {
    Filter((plugin: Plugin) => Loaded(s.loader, plugin.packageName).None?
                            && Configured(ReadProfile(s.profile), plugin.packageName).None?, plan)
  }

  function MissingPackages(s: State, plan: seq<Plugin>): set<string> {
    set plugin | plugin in MissingFrom(s, plan) :: plugin.packageName
  }

  predicate IsDisabled(s: State, packageName: string) {
    || (Loaded(s.loader, packageName).Some? && Loaded(s.loader, packageName).value.disabled)
    || (Configured(ReadProfile(s.profile), packageName).Some?
        && Configured(ReadProfile(s.profile), packageName).value.disabled)
  }

  function DisabledAmong(s: State, dependencies: seq<Plugin>): seq<Plugin> {
    Filter((plugin: Plugin) => IsDisabled(s, plugin.packageName), dependencies)
  }

  function PendingAmong(s: State, dependencies: seq<Plugin>): seq<Plugin> {
    Filter((plugin: Plugin) => Configured(ReadProfile(s.profile), plugin.packageName).Some?
                            && Loaded(s.loader, plugin.packageName).None?, dependencies)
  }

  /** Switch the given dependencies back on; None stands for the error thrown when one of them has
      no profile entry. `entries` is what was read before the first write. */
  function Reenable(profile: seq<ProfileEntry>, entries: seq<ProfileEntry>, dependencies: seq<Plugin>):
    Option<seq<ProfileEntry>>
    decreases |dependencies|
  {
    if dependencies == [] then Some(profile)
    else
      match Configured(entries, dependencies[0].packageName)
      case None => None
      case Some(entry) =>
        if !HasId(profile, entry.id) then None
        else Reenable(SetDisabled(profile, entry.id, false), entries, dependencies[1..])
  }

  /** The install walk, from the last plan entry to the first. Each entry the profile lacks goes in
      front of the anchor, and every entry becomes the anchor of the one before it. */
  function Walk(profile: seq<ProfileEntry>, entries: seq<ProfileEntry>, missing: set<string>,
                plan: seq<Plugin>, anchor: Option<string>): seq<ProfileEntry>
    decreases |plan|
  {
    if plan == [] then profile
    else
      var plugin := Last(plan);
      var rest := plan[..|plan| - 1];
      match Configured(entries, plugin.packageName)
      case Some(entry) => Walk(profile, entries, missing, rest, Some(entry.id))
      case None =>
        if plugin.packageName in missing then
          Walk(AppendEntry(profile, plugin, anchor), entries, missing, rest, Some(EntryId(plugin)))
        else
          Walk(profile, entries, missing, rest, anchor)
  }

  function RuntimeAnchor(loader: seq<LoaderEntry>): Option<string> {
    match Loaded(loader, RUNTIME_ENTRY_NAME)
    case None => None
    case Some(entry) => Some(entry.id)
  }

  /** Where the runtime sits in the loader; without one, new entries go to the end. */
  function RuntimePosition(loader: seq<LoaderEntry>): (i: nat)
    ensures i <= |loader|
  {
    if loader == [] || loader[0].name == RUNTIME_ENTRY_NAME then 0 else 1 + RuntimePosition(loader[1..])
  }

  function NewLoaderEntry(plugin: Plugin): LoaderEntry {
    LoaderEntry(EntryId(plugin), plugin.packageName, false)
  }

  function NewLoaderEntries(plugins: seq<Plugin>): (r: seq<LoaderEntry>)
    ensures |r| == |plugins| && forall i :: 0 <= i < |r| ==> r[i] == NewLoaderEntry(plugins[i])
  {
    seq(|plugins|, i requires 0 <= i < |plugins| => NewLoaderEntry(plugins[i]))
  }

  /** How activating the missing plugins goes: the creation at `index` may fail, either because the
      runtime already leased the tool registry or for another reason. */
  datatype Activation = AllCreated | CreateFails(index: nat, leased: bool)

  /** How the loader takes an update. One that it rejects may leave the entry with either flag. */
  datatype UpdateOutcome = Updated | UpdateLeased(disabled: bool) | UpdateFailed(disabled: bool)

  /** The answers of npm, the file system and the loader to one request. Writing the profile may fail
      at one of its steps, counted from 0. Compensating actions succeed. */
  datatype Environment = Environment(npm: bool, failingWrite: Option<nat>, activation: Activation, update: UpdateOutcome)

  datatype Request =
    | InstallRequest(id: string)
    | ToggleRequest(id: string, enabled: bool)
    | UninstallRequest(id: string)

  /** Refused and RolledBack carry the HTTP status. */
  datatype Reply =
    | Refused(status: nat)
    | Applied(restartRequired: bool)
    | RolledBack

  /** What the profile becomes when an install gets as far as writing it, if nothing is thrown. */
  function InstalledProfile(s: State, plan: seq<Plugin>): Option<seq<ProfileEntry>>
    requires plan != []
  {
    var entries := ReadProfile(s.profile);
    match Reenable(s.profile, entries, DisabledAmong(s, plan[..|plan| - 1]))
    case None => None
    case Some(profile) => Some(Walk(profile, entries, MissingPackages(s, plan), plan, RuntimeAnchor(s.loader)))
  }

  // ----- the writes of an install, step by step

  /** The first n steps of the loop that re-enables. */
  function ReenableUpTo(profile: seq<ProfileEntry>, entries: seq<ProfileEntry>, dependencies: seq<Plugin>, n: nat):
    seq<ProfileEntry>
    decreases n
  {
    if dependencies == [] || n == 0 then profile
    else
      match Configured(entries, dependencies[0].packageName)
      case None => profile
      case Some(entry) =>
        if !HasId(profile, entry.id) then profile
        else ReenableUpTo(SetDisabled(profile, entry.id, false), entries, dependencies[1..], n - 1)
  }

  /** The plan entries that the first n steps of the walk have passed. */
  function Passed(plan: seq<Plugin>, n: nat): seq<Plugin> {
    if n < |plan| then plan[|plan| - n..] else plan
  }

  /** The profile after the first n steps of writing: one step for each dependency to re-enable, then
      one for each plan entry from the last to the first. */
  function WrittenProfile(s: State, plan: seq<Plugin>, n: nat): seq<ProfileEntry>
    requires plan != []
  {
    var entries := ReadProfile(s.profile);
    var dependencies := DisabledAmong(s, plan[..|plan| - 1]);
    match Reenable(s.profile, entries, dependencies)
    case None => ReenableUpTo(s.profile, entries, dependencies, n)
    case Some(profile) =>
      if n <= |dependencies| then ReenableUpTo(s.profile, entries, dependencies, n)
      else Walk(profile, entries, MissingPackages(s, plan), Passed(plan, n - |dependencies|), RuntimeAnchor(s.loader))
  }

  /** Step n writes something: only missing entries are written by the walk. */
  predicate WritesAt(s: State, plan: seq<Plugin>, n: nat)
    requires plan != []
  {
    var k := n - |DisabledAmong(s, plan[..|plan| - 1])|;
    k < 0 || (k < |plan| && plan[|plan| - 1 - k] in MissingFrom(s, plan))
  }

  function Install(catalog: seq<Plugin>, s: State, id: string, env: Environment): (State, Reply) {
    match PluginById(catalog, id)
    case None => (s, Refused(404))
    case Some(plugin) =>
      match PlanOf(plugin, catalog)
      case Failure(_) => (s, Refused(400))
      case Success(plan) => if plan == [] then (s, Refused(400)) else InstallPlanned(s, plan, env)
  }

  function InstallPlanned(s: State, plan: seq<Plugin>, env: Environment): (State, Reply)
    requires plan != []
  {
    var dependencies := plan[..|plan| - 1];
    var missing := MissingFrom(s, plan);
    var disabledDependencies := DisabledAmong(s, dependencies);
    var pendingDependencies := PendingAmong(s, dependencies);
    if missing == [] && disabledDependencies == [] then
      if pendingDependencies == [] && Loaded(s.loader, Last(plan).packageName).Some?
      then (s, Refused(409))
      else (s, Applied(true))
    else if missing != [] && !env.npm then (s, RolledBack)
    else
      match InstalledProfile(s, plan)
      case None => (s, RolledBack)
      case Some(profile) =>
        if env.failingWrite.Some? && WritesAt(s, plan, env.failingWrite.value) then (s, RolledBack)
        else if disabledDependencies != [] || pendingDependencies != [] then (State(s.loader, profile), Applied(true))
        else if env.activation.CreateFails? && env.activation.index < |missing| then
          if env.activation.leased then (State(s.loader, profile), Applied(true)) else (s, RolledBack)
        else
          var i := RuntimePosition(s.loader);
          (State(s.loader[..i] + NewLoaderEntries(missing) + s.loader[i..], profile), Applied(false))
  }

  // ----- toggle and uninstall

  function LoaderPosition(loader: seq<LoaderEntry>, id: string): (i: nat)
    ensures i <= |loader|
    ensures i < |loader| ==> loader[i].id == id
    ensures forall j :: 0 <= j < i ==> loader[j].id != id
  {
    if loader == [] || loader[0].id == id then 0 else 1 + LoaderPosition(loader[1..], id)
  }

  predicate MayEnable(catalog: seq<Plugin>, s: State, plugin: Plugin) {
    match PlanOf(plugin, catalog)
    case Failure(_) => false
    case Success(plan) =>
      plan != [] &&
      Filter((dependency: Plugin) => dependency.packageName !in ActivePackages(s.loader, ReadProfile(s.profile)),
             plan[..|plan| - 1]) == []
  }

  predicate MayDrop(catalog: seq<Plugin>, s: State, plugin: Plugin) {
    DependencyBlockers(catalog, plugin, EnabledPackages(s.loader, ReadProfile(s.profile))) == []
  }

  function Toggle(catalog: seq<Plugin>, s: State, id: string, enabled: bool, env: Environment): (State, Reply) {
    var i := LoaderPosition(s.loader, id);
    if i == |s.loader| then (s, Refused(404))
    else
      match PluginByPackage(catalog, s.loader[i].name)
      case None => (s, Refused(403))
      case Some(plugin) =>
        if !(if enabled then MayEnable(catalog, s, plugin) else MayDrop(catalog, s, plugin)) then (s, Refused(409))
        else if !HasId(s.profile, id) || env.failingWrite == Some(0) then (s, Refused(400))
        else
          var profile := SetDisabled(s.profile, id, !enabled);
          match env.update
          case Updated => (State(s.loader[i := s.loader[i].(disabled := !enabled)], profile), Applied(false))
          case UpdateLeased(flag) => (State(s.loader[i := s.loader[i].(disabled := flag)], profile), Applied(true))
          case UpdateFailed(flag) => (State(s.loader[i := s.loader[i].(disabled := flag)], s.profile), RolledBack)
  }

  function Uninstall(catalog: seq<Plugin>, s: State, id: string, env: Environment): (State, Reply) {
    var i := LoaderPosition(s.loader, id);
    if i == |s.loader| then
      // Installed but waiting for a restart: only the profile knows the entry.
      match Find((entry: ProfileEntry) => entry.id == id, ReadProfile(s.profile))
      case None => (s, Refused(404))
      case Some(pending) =>
        match PluginByPackage(catalog, pending.packageName)
        case None => (s, Refused(404))
        case Some(plugin) =>
          if !MayDrop(catalog, s, plugin) then (s, Refused(409))
          else if !HasId(s.profile, id) || env.failingWrite == Some(0) || !env.npm then (s, RolledBack)
          else (State(s.loader, RemoveEntry(s.profile, id)), Applied(false))
    else
      match PluginByPackage(catalog, s.loader[i].name)
      case None => (s, Refused(403))
      case Some(plugin) =>
        if !MayDrop(catalog, s, plugin) then (s, Refused(409))
        else if !HasId(s.profile, id) || env.failingWrite == Some(0) || !env.npm then
          // The entry is created again in its old place, but without its disabled flag.
          (State(s.loader[i := s.loader[i].(disabled := false)], s.profile), RolledBack)
        else
          (State(s.loader[..i] + s.loader[i + 1..], RemoveEntry(s.profile, id)), Applied(false))
  }

  function Handle(catalog: seq<Plugin>, s: State, request: Request, env: Environment): (State, Reply) {
    match request
    case InstallRequest(id) => Install(catalog, s, id, env)
    case ToggleRequest(id, enabled) => Toggle(catalog, s, id, enabled, env)
    case UninstallRequest(id) => Uninstall(catalog, s, id, env)
  }

  /** A restart rebuilds the loader from the profile. */
  function Restart(s: State): State {
    State(seq(|s.profile|, i requires 0 <= i < |s.profile| =>
                LoaderEntry(s.profile[i].id, s.profile[i].packageName, s.profile[i].disabled)), s.profile)
  }
}
