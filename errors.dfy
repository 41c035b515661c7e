/** The crate's error enum, with the variants the modelled core raises. */
module Errors {
  import opened Files

  datatype PlaylistError =
    | InvalidName(name: string, reason: string)
    | NotFound(name: string)
    | AlreadyExists(name: string)

  datatype DeviceError =
    | NotFound(name: string)
    | NotMounted(mountPoint: Path)
    | Disconnected(name: string)
    | InsufficientSpace(device: string, availableBytes: nat, requiredBytes: nat)
    | ReadOnly(mountPoint: Path)

  datatype FileSystemError =
    | NotFound(path: Path)
    | InvalidPath(path: Path, reason: string)
    | ReadFailed(path: Path)
    | WriteFailed(path: Path)
    | DeleteFailed(path: Path)
    | CreateDirFailed(path: Path)
    | CopyFailed(source: Path, destination: Path)

  datatype TransferError =
    | SourceNotFound(path: Path)

  datatype Error =
    | Playlist(playlist: PlaylistError)
    | Device(device: DeviceError)
    | FileSystem(fs: FileSystemError)
    | Transfer(transfer: TransferError)
    | Configuration(message: string)
    | Cancelled
    | Serialization
    | InvalidYouTubeUrl(message: string)
    | NotAPlaylist(message: string)
    | CacheFull(usedBytes: nat, maxBytes: nat)
    | Network(message: string)
}
