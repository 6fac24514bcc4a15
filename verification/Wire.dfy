/** The private protocol errors of internal/worker, shared by codec, frames and connections. */
module Wire {
  datatype WireError =
    | EmptyPayload | TruncatedFrame | FrameTooLarge | InvalidUtf8 | MalformedJson | TrailingJson
    | UnknownType | UnknownField | InvalidNumber | IllegalState | InvalidValue | InvalidLimits | BrokenPipe

  datatype Result<+T> = Success(value: T) | Failure(error: WireError)
}
