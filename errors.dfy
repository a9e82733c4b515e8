/** The application's error taxonomy (src/error/mod.rs), restricted to the
    variants the modelled core can produce. Every variant carries the text
    that the source formats into it. */
module Errors {

  datatype VitalError =
    | Decompression(message: string)
    | JsonParse(message: string)
    | SocketIo(message: string)
    | Config(message: string)
    | Processing(message: string)
    | Logger(message: string)
}
