/** Shared wrappers used by every component model: optional values, the outcome
    of one awaited HTTP request, a picked file, and JavaScript truthiness of the
    optional strings the components test with `if (x)` or `x || y`. */
module Base {

  datatype Option<T> = None | Some(value: T)

  /** The outcome of one awaited request as the calling code observes it: a
      resolved response carrying its body, a rejection that carries a response
      status, or a rejection with no response at all (a network failure). */
  datatype ApiOutcome<T> = Ok(data: T) | HttpErr(status: int) | Thrown

  /** A file chosen in a browser file input; only its identity matters. */
  datatype File = File(handle: nat)

  /** `!!s` for a string that may be missing: present and non-empty. */
  predicate Truthy(s: Option<string>) {
    s.Some? && s.value != ""
  }

  /** A transient notification shown by the form dialogs. */
  datatype Message = Message(text: string, isError: bool)
}
