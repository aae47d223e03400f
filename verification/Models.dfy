/** The ETSI GS QKD 004 data model: the structs and codes of models.h, as values. */
module Models {
  import opened Machine

  const UUID_SIZE := 16
  const MIMETYPE_MAX := 256

  /** A C string without its terminating NUL. */
  type CString = s: bytes | 0 !in s

  /** `qkd_bytes_t`: its `size` field is a `uint32_t`. */
  type Blob = s: bytes | |s| < WORD

  type Uuid = u: bytes | |u| == UUID_SIZE witness [0, 0, 0, 0, 0, 0, 0, 0, 0, 0, 0, 0, 0, 0, 0, 0]

  const NIL_UUID: Uuid := [0, 0, 0, 0, 0, 0, 0, 0, 0, 0, 0, 0, 0, 0, 0, 0]

  /** `qkd_qos_t`; `M` is how the mimetype is held: a string here, a pointer in the server. */
  datatype QosOf<+M> = QosOf(
    keyChunkSize: uint32, maxBps: uint32, minBps: uint32, jitter: uint32,
    priority: uint32, timeout: uint32, ttl: uint32, mimetype: M)

  type Qos = QosOf<CString>

  datatype OpenRequest = OpenRequest(source: CString, destination: CString, qos: Qos, ksid: Uuid)
  datatype OpenResponse = OpenResponse(status: uint32, qos: Qos, ksid: Uuid)
  datatype GetKeyRequest = GetKeyRequest(ksid: Uuid, index: uint32, metadata: Blob)
  datatype GetKeyResponse = GetKeyResponse(status: uint32, index: uint32, key: Blob, metadata: Blob)
  datatype CloseRequest = CloseRequest(ksid: Uuid)
  datatype CloseResponse = CloseResponse(status: uint32)
  datatype Header = Header(major: byte, minor: byte, micro: byte, service: byte, payloadSize: uint32)

  const HEADER_SIZE := 8

  /** A header of version 2.1.1. */
  function MakeHeader(service: byte, payloadSize: uint32): Header {
    Header(VERSION_MAJOR, VERSION_MINOR, VERSION_MICRO, service, payloadSize)
  }

  const VERSION_MAJOR: byte := 2
  const VERSION_MINOR: byte := 1
  const VERSION_MICRO: byte := 1

  const STATUS_SUCCESSFUL: uint32 := 0
  const STATUS_PEER_NOT_CONNECTED: uint32 := 3

  const OPEN_CONNECT_REQUEST: byte := 2
  const OPEN_CONNECT_RESPONSE: byte := 3
  const GET_KEY_REQUEST: byte := 4
  const GET_KEY_RESPONSE: byte := 5
  const CLOSE_REQUEST: byte := 8
  const CLOSE_RESPONSE: byte := 9
  const CLOSE_SERVER: byte := 255

  const KEY_TYPE_SYMMETRIC: byte := 0
  const KEY_ROLE_SENDER: byte := 16
}
