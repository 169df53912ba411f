/** The error codes of `libssh2.h`. */
module Errors {
  const ERROR_ALLOC := -6
  const ERROR_SOCKET_SEND := -7
  const ERROR_TIMEOUT := -9
  const ERROR_SOCKET_DISCONNECT := -13
  const ERROR_PROTO := -14
  const ERROR_FILE := -16
  const ERROR_CHANNEL_REQUEST_DENIED := -22
  const ERROR_CHANNEL_CLOSED := -26
  const ERROR_CHANNEL_EOF_SENT := -27
  const ERROR_METHOD_NOT_SUPPORTED := -33
  const ERROR_INVAL := -34
  const ERROR_EAGAIN := -37
  const ERROR_BUFFER_TOO_SMALL := -38
  const ERROR_BAD_USE := -39
  const ERROR_KNOWN_HOSTS := -46
  const ERROR_RANDGEN := -49
}
