/** Constants of cpp-httplib that several modules use. */
module Http {
  const CRLF: string := "\r\n"
  const HEADER_MAX_LENGTH: nat := 8192
}
