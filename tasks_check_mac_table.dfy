/**
 * The second copy of the MAC counting task. It behaves as `CheckMacTable`
 * does, except that tables are counted by the host's `nornir_nos` inventory
 * entry instead of its platform.
 */
module TasksCheckMacTable {
  import opened Wrappers
  import opened SwitchObjects
  import opened Device
  import opened CheckMacTable

  /** `get_interfaces_macs(task, interface_list)`: tables are counted by the host's `nornir_nos`. */
  method GetInterfacesMacs(host: Host, interfaceList: seq<string>) returns (err: Option<Error>)
    requires host.Valid()
    modifies host, host.interfaces, host.connection
    ensures host.Valid() && host.vendorVars == old(host.vendorVars)
    ensures Run(StatesOf(host.interfaces), host.connection.Value(), err)
         == MacRun(host.nornirNos, host.vendorVars,
                   if interfaceList != [] then Rebuilt(interfaceList, Switched) else old(StatesOf(host.interfaces)),
                   old(host.connection.Value()))
  {
    hide MacStep;
    if interfaceList != [] {
      host.Rebuild(interfaceList, Switched);
    }
    err := MacLoop(host, host.nornirNos);
  }
}
