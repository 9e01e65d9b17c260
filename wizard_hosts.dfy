/**
 * The host records the two wizard screens hand to each other: the host-name
 * entry screen produces them, the bootstrap screen loads them.
 */
module WizardHosts {

  /** A host's `bootStatus`. The source keeps it as a free string; the server
      may report a status outside the six the screens know, kept as `Other`. */
  datatype BootStatus =
    | Pending
    | Running
    | Done
    | Registering
    | Registered
    | Failed
    | Other(tag: string)

  /** `installType`: 'manualDriven' or 'ambariDriven'. */
  datatype InstallType = ManualDriven | AmbariDriven

  /** One entry of the host dictionary saved by the host-name entry screen. */
  datatype HostInfo = HostInfo(name: string, installType: InstallType, bootStatus: BootStatus)
}
