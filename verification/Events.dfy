/** The event record and its name tables. */
module Events {
  datatype Category = Filesystem | Process | Network | SystemConfig | Hardware | System | Unknown

  datatype EventType =
    | FileCreated | FileModified | FileDeleted | FileMoved | FilePermissionChanged
    | ProcessStarted | ProcessStopped | ProcessCpuSpike | ProcessMemorySpike
    | NetworkConnectionOpened | NetworkConnectionClosed | NetworkBandwidthSpike | NetworkDnsQuery
    | ConfigValueChanged | ServiceStateChanged | UserLoggedIn | UserLoggedOut
    | UsbDeviceInserted | UsbDeviceRemoved
    | DiskSpaceWarning | DiskSpaceCritical | DiskSpaceChanged | SystemLoadHigh | SystemLoadNormal
    | LogPatternMatched | LogAnomalyDetected
    | UnknownType

  /** The timestamp is in milliseconds since the epoch. */
  datatype Event = Event(
    id: nat, timestamp: int, category: Category, kind: EventType, source: string, target: string,
    attributes: map<string, string>, summary: string, host: string, platform: string)

  function CategoryName(c: Category): string {
    match c
    case Filesystem => "filesystem"
    case Process => "process"
    case Network => "network"
    case SystemConfig => "system_config"
    case Hardware => "hardware"
    case System => "system"
    case Unknown => "unknown"
  }

  function CategoryFromName(n: string): Category {
    if n == "filesystem" then Filesystem
    else if n == "process" then Process
    else if n == "network" then Network
    else if n == "system_config" then SystemConfig
    else if n == "hardware" then Hardware
    else if n == "system" then System
    else Unknown
  }

  function TypeName(t: EventType): string {
    match t
    case FileCreated => "file_created"
    case FileModified => "file_modified"
    case FileDeleted => "file_deleted"
    case FileMoved => "file_moved"
    case FilePermissionChanged => "file_permission_changed"
    case ProcessStarted => "process_started"
    case ProcessStopped => "process_stopped"
    case ProcessCpuSpike => "process_cpu_spike"
    case ProcessMemorySpike => "process_memory_spike"
    case NetworkConnectionOpened => "network_connection_opened"
    case NetworkConnectionClosed => "network_connection_closed"
    case NetworkBandwidthSpike => "network_bandwidth_spike"
    case NetworkDnsQuery => "network_dns_query"
    case ConfigValueChanged => "config_value_changed"
    case ServiceStateChanged => "service_state_changed"
    case UserLoggedIn => "user_logged_in"
    case UserLoggedOut => "user_logged_out"
    case UsbDeviceInserted => "usb_device_inserted"
    case UsbDeviceRemoved => "usb_device_removed"
    case DiskSpaceWarning => "disk_space_warning"
    case DiskSpaceCritical => "disk_space_critical"
    case DiskSpaceChanged => "disk_space_changed"
    case SystemLoadHigh => "system_load_high"
    case SystemLoadNormal => "system_load_normal"
    case LogPatternMatched => "log_pattern_matched"
    case LogAnomalyDetected => "log_anomaly_detected"
    case UnknownType => "unknown"
  }

  // The reverse table, in the blocks the source writes it in. The third letter tells the blocks apart.

  function FileTypeFromName(n: string): (t: EventType) {
    if n == "file_created" then FileCreated
    else if n == "file_modified" then FileModified
    else if n == "file_deleted" then FileDeleted
    else if n == "file_moved" then FileMoved
    else if n == "file_permission_changed" then FilePermissionChanged
    else UnknownType
  }

  function ProcessTypeFromName(n: string): (t: EventType) {
    if n == "process_started" then ProcessStarted
    else if n == "process_stopped" then ProcessStopped
    else if n == "process_cpu_spike" then ProcessCpuSpike
    else if n == "process_memory_spike" then ProcessMemorySpike
    else UnknownType
  }

  function NetworkTypeFromName(n: string): (t: EventType) {
    if n == "network_connection_opened" then NetworkConnectionOpened
    else if n == "network_connection_closed" then NetworkConnectionClosed
    else if n == "network_bandwidth_spike" then NetworkBandwidthSpike
    else if n == "network_dns_query" then NetworkDnsQuery
    else UnknownType
  }

  function ConfigTypeFromName(n: string): (t: EventType) {
    if n == "config_value_changed" then ConfigValueChanged
    else if n == "service_state_changed" then ServiceStateChanged
    else if n == "user_logged_in" then UserLoggedIn
    else if n == "user_logged_out" then UserLoggedOut
    else UnknownType
  }

  function UsbTypeFromName(n: string): (t: EventType) {
    if n == "usb_device_inserted" then UsbDeviceInserted
    else if n == "usb_device_removed" then UsbDeviceRemoved
    else UnknownType
  }

  function SystemTypeFromName(n: string): (t: EventType) {
    if n == "disk_space_warning" then DiskSpaceWarning
    else if n == "disk_space_critical" then DiskSpaceCritical
    else if n == "disk_space_changed" then DiskSpaceChanged
    else if n == "system_load_high" then SystemLoadHigh
    else if n == "system_load_normal" then SystemLoadNormal
    else UnknownType
  }

  function LogTypeFromName(n: string): (t: EventType) {
    if n == "log_pattern_matched" then LogPatternMatched
    else if n == "log_anomaly_detected" then LogAnomalyDetected
    else UnknownType
  }

  function OrElse(t: EventType, otherwise: EventType): EventType { if t.UnknownType? then otherwise else t }

  /** Unknown names give the unknown type. */
  function TypeFromName(n: string): EventType {
    OrElse(FileTypeFromName(n), OrElse(ProcessTypeFromName(n), OrElse(NetworkTypeFromName(n),
    OrElse(ConfigTypeFromName(n), OrElse(UsbTypeFromName(n), OrElse(SystemTypeFromName(n), LogTypeFromName(n)))))))
  }

  predicate IsFileType(t: EventType) { t.FileCreated? || t.FileModified? || t.FileDeleted? || t.FileMoved? || t.FilePermissionChanged? }

  lemma FileLetter(n: string)
    ensures !FileTypeFromName(n).UnknownType? ==> |n| > 2 && n[2] in "l"
  {
  }

  lemma FileNames(t: EventType)
    ensures IsFileType(t) ==> |TypeName(t)| > 2 && TypeName(t)[2] in "l"
    ensures IsFileType(t) ==> FileTypeFromName(TypeName(t)) == t
  {
  }

  lemma FileNamesPlain(t: EventType)
    ensures IsFileType(t) ==> Plain(TypeName(t))
  {
  }

  predicate IsProcessType(t: EventType) { t.ProcessStarted? || t.ProcessStopped? || t.ProcessCpuSpike? || t.ProcessMemorySpike? }

  lemma ProcessLetter(n: string)
    ensures !ProcessTypeFromName(n).UnknownType? ==> |n| > 2 && n[2] in "o"
  {
  }

  lemma ProcessNames(t: EventType)
    ensures IsProcessType(t) ==> |TypeName(t)| > 2 && TypeName(t)[2] in "o"
    ensures IsProcessType(t) ==> ProcessTypeFromName(TypeName(t)) == t
  {
  }

  lemma ProcessNamesPlain(t: EventType)
    ensures IsProcessType(t) ==> Plain(TypeName(t))
  {
  }

  predicate IsNetworkType(t: EventType) { t.NetworkConnectionOpened? || t.NetworkConnectionClosed? || t.NetworkBandwidthSpike? || t.NetworkDnsQuery? }

  lemma NetworkLetter(n: string)
    ensures !NetworkTypeFromName(n).UnknownType? ==> |n| > 2 && n[2] in "t"
  {
  }

  lemma NetworkNames(t: EventType)
    ensures IsNetworkType(t) ==> |TypeName(t)| > 2 && TypeName(t)[2] in "t"
    ensures IsNetworkType(t) ==> NetworkTypeFromName(TypeName(t)) == t
  {
  }

  lemma NetworkNamesPlain(t: EventType)
    ensures IsNetworkType(t) ==> Plain(TypeName(t))
  {
  }

  predicate IsConfigType(t: EventType) { t.ConfigValueChanged? || t.ServiceStateChanged? || t.UserLoggedIn? || t.UserLoggedOut? }

  lemma ConfigLetter(n: string)
    ensures !ConfigTypeFromName(n).UnknownType? ==> |n| > 2 && n[2] in "nre"
  {
  }

  lemma ConfigNames(t: EventType)
    ensures IsConfigType(t) ==> |TypeName(t)| > 2 && TypeName(t)[2] in "nre"
    ensures IsConfigType(t) ==> ConfigTypeFromName(TypeName(t)) == t
  {
  }

  lemma ConfigNamesPlain(t: EventType)
    ensures IsConfigType(t) ==> Plain(TypeName(t))
  {
  }

  predicate IsUsbType(t: EventType) { t.UsbDeviceInserted? || t.UsbDeviceRemoved? }

  lemma UsbLetter(n: string)
    ensures !UsbTypeFromName(n).UnknownType? ==> |n| > 2 && n[2] in "b"
  {
  }

  lemma UsbNames(t: EventType)
    ensures IsUsbType(t) ==> |TypeName(t)| > 2 && TypeName(t)[2] in "b"
    ensures IsUsbType(t) ==> UsbTypeFromName(TypeName(t)) == t
  {
  }

  lemma UsbNamesPlain(t: EventType)
    ensures IsUsbType(t) ==> Plain(TypeName(t))
  {
  }

  predicate IsSystemType(t: EventType) { t.DiskSpaceWarning? || t.DiskSpaceCritical? || t.DiskSpaceChanged? || t.SystemLoadHigh? || t.SystemLoadNormal? }

  lemma SystemLetter(n: string)
    ensures !SystemTypeFromName(n).UnknownType? ==> |n| > 2 && n[2] in "s"
  {
  }

  lemma SystemNames(t: EventType)
    ensures IsSystemType(t) ==> |TypeName(t)| > 2 && TypeName(t)[2] in "s"
    ensures IsSystemType(t) ==> SystemTypeFromName(TypeName(t)) == t
  {
  }

  lemma DiskNamesPlain(t: EventType)
    ensures t.DiskSpaceWarning? || t.DiskSpaceCritical? || t.DiskSpaceChanged? ==> Plain(TypeName(t))
  {
  }

  lemma LoadNamesPlain(t: EventType)
    ensures t.SystemLoadHigh? || t.SystemLoadNormal? ==> Plain(TypeName(t))
  {
  }

  predicate IsLogType(t: EventType) { t.LogPatternMatched? || t.LogAnomalyDetected? }

  lemma LogLetter(n: string)
    ensures !LogTypeFromName(n).UnknownType? ==> |n| > 2 && n[2] in "g"
  {
  }

  lemma LogNames(t: EventType)
    ensures IsLogType(t) ==> |TypeName(t)| > 2 && TypeName(t)[2] in "g"
    ensures IsLogType(t) ==> LogTypeFromName(TypeName(t)) == t
  {
  }

  lemma LogNamesPlain(t: EventType)
    ensures IsLogType(t) ==> Plain(TypeName(t))
  {
  }

  /** Names are lower-case letters and underscores, so no separator of any codec. */
  predicate Plain(s: string) { forall i :: 0 <= i < |s| ==> 'a' <= s[i] <= 'z' || s[i] == '_' }

  lemma CategoriesRoundTrip(c: Category)
    ensures CategoryFromName(CategoryName(c)) == c && Plain(CategoryName(c))
  {
  }

  /** The reverse tables undo the name tables. */
  lemma NamesRoundTrip(c: Category, t: EventType)
    ensures CategoryFromName(CategoryName(c)) == c
    ensures TypeFromName(TypeName(t)) == t
    ensures Plain(CategoryName(c)) && Plain(TypeName(t))
  {
    hide FileTypeFromName, ProcessTypeFromName, NetworkTypeFromName, ConfigTypeFromName, UsbTypeFromName,
         SystemTypeFromName, LogTypeFromName, TypeName, CategoryName, CategoryFromName;
    CategoriesRoundTrip(c);
    var n := TypeName(t);
    FileLetter(n);
    FileNames(t);
    FileNamesPlain(t);
    ProcessLetter(n);
    ProcessNames(t);
    ProcessNamesPlain(t);
    NetworkLetter(n);
    NetworkNames(t);
    NetworkNamesPlain(t);
    ConfigLetter(n);
    ConfigNames(t);
    ConfigNamesPlain(t);
    UsbLetter(n);
    UsbNames(t);
    UsbNamesPlain(t);
    SystemLetter(n);
    SystemNames(t);
    DiskNamesPlain(t);
    LoadNamesPlain(t);
    LogLetter(n);
    LogNames(t);
    LogNamesPlain(t);
    UnknownName();
  }

  lemma UnknownName()
    ensures Plain(TypeName(UnknownType)) && TypeName(UnknownType)[2] == 'k'
  {
  }

  lemma CategoryNamesAre()
    ensures CategoryName(Filesystem) == "filesystem" && CategoryName(Process) == "process" && CategoryName(Network) == "network"
    ensures CategoryName(SystemConfig) == "system_config" && CategoryName(Hardware) == "hardware"
    ensures CategoryName(System) == "system" && CategoryName(Unknown) == "unknown"
  {
  }

  lemma FileNamesAre()
    ensures TypeName(FileCreated) == "file_created" && TypeName(FileModified) == "file_modified"
    ensures TypeName(FileDeleted) == "file_deleted" && TypeName(FileMoved) == "file_moved"
    ensures TypeName(FilePermissionChanged) == "file_permission_changed"
  {
  }

  lemma ProcessNamesAre()
    ensures TypeName(ProcessStarted) == "process_started" && TypeName(ProcessStopped) == "process_stopped"
    ensures TypeName(ProcessCpuSpike) == "process_cpu_spike" && TypeName(ProcessMemorySpike) == "process_memory_spike"
  {
  }

  lemma NetworkNamesAre()
    ensures TypeName(NetworkConnectionOpened) == "network_connection_opened" && TypeName(NetworkConnectionClosed) == "network_connection_closed"
    ensures TypeName(NetworkBandwidthSpike) == "network_bandwidth_spike" && TypeName(NetworkDnsQuery) == "network_dns_query"
  {
  }

  lemma ConfigNamesAre()
    ensures TypeName(ConfigValueChanged) == "config_value_changed" && TypeName(ServiceStateChanged) == "service_state_changed"
    ensures TypeName(UserLoggedIn) == "user_logged_in" && TypeName(UserLoggedOut) == "user_logged_out"
  {
  }

  lemma UsbNamesAre()
    ensures TypeName(UsbDeviceInserted) == "usb_device_inserted" && TypeName(UsbDeviceRemoved) == "usb_device_removed"
  {
  }

  lemma SystemNamesAre()
    ensures TypeName(DiskSpaceWarning) == "disk_space_warning" && TypeName(DiskSpaceCritical) == "disk_space_critical"
    ensures TypeName(DiskSpaceChanged) == "disk_space_changed" && TypeName(SystemLoadHigh) == "system_load_high"
    ensures TypeName(SystemLoadNormal) == "system_load_normal"
  {
  }

  lemma LogNamesAre()
    ensures TypeName(LogPatternMatched) == "log_pattern_matched" && TypeName(LogAnomalyDetected) == "log_anomaly_detected"
    ensures TypeName(UnknownType) == "unknown"
  {
  }

  /** The names as they are stored, exported and configured. */
  lemma NamesAre()
    ensures CategoryName(Filesystem) == "filesystem" && CategoryName(Process) == "process" && CategoryName(Network) == "network"
    ensures CategoryName(SystemConfig) == "system_config" && CategoryName(Hardware) == "hardware"
    ensures CategoryName(System) == "system" && CategoryName(Unknown) == "unknown"
    ensures TypeName(FileCreated) == "file_created" && TypeName(FileModified) == "file_modified"
    ensures TypeName(FileDeleted) == "file_deleted" && TypeName(FileMoved) == "file_moved"
    ensures TypeName(FilePermissionChanged) == "file_permission_changed"
    ensures TypeName(ProcessStarted) == "process_started" && TypeName(ProcessStopped) == "process_stopped"
    ensures TypeName(ProcessCpuSpike) == "process_cpu_spike" && TypeName(ProcessMemorySpike) == "process_memory_spike"
    ensures TypeName(NetworkConnectionOpened) == "network_connection_opened" && TypeName(NetworkConnectionClosed) == "network_connection_closed"
    ensures TypeName(NetworkBandwidthSpike) == "network_bandwidth_spike" && TypeName(NetworkDnsQuery) == "network_dns_query"
    ensures TypeName(ConfigValueChanged) == "config_value_changed" && TypeName(ServiceStateChanged) == "service_state_changed"
    ensures TypeName(UserLoggedIn) == "user_logged_in" && TypeName(UserLoggedOut) == "user_logged_out"
    ensures TypeName(UsbDeviceInserted) == "usb_device_inserted" && TypeName(UsbDeviceRemoved) == "usb_device_removed"
    ensures TypeName(DiskSpaceWarning) == "disk_space_warning" && TypeName(DiskSpaceCritical) == "disk_space_critical"
    ensures TypeName(DiskSpaceChanged) == "disk_space_changed" && TypeName(SystemLoadHigh) == "system_load_high"
    ensures TypeName(SystemLoadNormal) == "system_load_normal"
    ensures TypeName(LogPatternMatched) == "log_pattern_matched" && TypeName(LogAnomalyDetected) == "log_anomaly_detected"
    ensures TypeName(UnknownType) == "unknown"
  {
    hide TypeName, CategoryName;
    CategoryNamesAre();
    FileNamesAre();
    ProcessNamesAre();
    NetworkNamesAre();
    ConfigNamesAre();
    UsbNamesAre();
    SystemNamesAre();
    LogNamesAre();
  }
}
