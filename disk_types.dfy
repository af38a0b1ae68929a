/** The disk record that the inventory produces and placement consumes (`tools.DiskInfo`). */
module DiskTypes {

  const SSD: string := "SSD"
  const HDD: string := "HDD"

  /** One usable disk; `Size` is in bytes. */
  datatype DiskInfo = DiskInfo(
    Id: string,
    FsType: string,
    MediaType: string,
    FileSystem: string,
    MountPoint: string,
    Size: int,
    IoClass: int,
    IsBootDisk: bool,
    IsExclusive: bool,
    Used: int,
    UsedPercent: int)
}
