/** Option and Result, used for lookups that may miss and for error exits. */
module Wrappers {

  datatype Option<+T> = None | Some(value: T)

  datatype Result<+T, +E> = Success(value: T) | Failure(error: E)
}

/**
 * Constants shared by client and server (src/common.h), plus the few that the
 * server code uses but that no shown header defines; those get model values,
 * chosen distinct from each other and from the handshake signal codes.
 */
module Common {

  /** Handshake signal codes. */
  const StartCom := 1
  const StopCom := -1
  const SucceedCom := 2
  const FailedCom := -2

  /** Generic status codes. */
  const SuccessGeneric := 0
  const FailureGeneric := -1
  const ErrorMemory := -1
  const ErrorArgNoval := 2

  /** Channel errors. */
  const ErrorPipeSerCte := 5
  const ErrorPipeCteSer := 6
  const ErrorComunicacion := 7

  /** searchClient / removeClient: the PID is not registered. */
  const ErrorPidNotExist := -1

  /** Request kinds carried in a book packet (enum PETICION). */
  const Solicitar := 0
  const Renovar := 1
  const Devolver := 2
  const Buscar := 3

  /** Reply codes of the inventory operations (not defined in the shown headers). */
  const Solicitud := 3
  const Renovacion := 4
  const Devolucion := 5
  const ErrorCode := -3

  /** Status of a refused inventory request (not defined in the shown headers). */
  const ErrorSolicitud := 10

  /** Size of the inventory array (MAX_CANT_LIBROS). */
  const MaxCantLibros := 100

  /** Number of slots of the request buffer (BUFFER_SIZE; not defined in the shown headers). */
  const BufferSize := 10

  /** One week, in whole days (WEEK_SEC seconds added through calendar time). */
  const WeekDays := 7

  /**
   * What the operating system answers to the calls the core makes:
   * the descriptor `open` returns (negative on failure), whether `close`
   * of a valid descriptor succeeds, whether the one `write` succeeds,
   * and today's date as a day number.
   */
  datatype Env = Env(openFd: int, closeOk: bool, writeOk: bool, now: int)
}
