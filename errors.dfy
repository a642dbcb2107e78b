/**
 * The crate-wide error enum of src/error.rs. `IoErr` keeps only the
 * `std::io::ErrorKind` distinctions the code branches on.
 */
module Errors {
  import opened Bytes

  datatype IoKind = ConnectionRefused | ConnectionReset | OtherIo

  datatype Error =
    | Incomplete
    | VnUnsupported(vn: u8)
    | UnknownCmd(cmd: u8)
    | NotIpV4
    | NotIpV6
    | AddrTypeUnsupported
    | NotImplemented
    | ServerRefusedAuth
    | IoErr(kind: IoKind)
    | Other(desc: string)

  /** The `From<FromUtf8Error>` conversion; the message text is abstracted. */
  const Utf8Error: Error := Other("invalid utf-8")
}
