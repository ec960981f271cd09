/** The crate's error type: a boxed `ErrorKind`, its accessors and its display text. */
module Errors {

  /**
   * An operating-system I/O error. Only the text it displays matters to the
   * model; which operation produced it is recorded by where it is returned.
   */
  datatype IoError = IoError(message: string)

  /** What opening or inspecting a path that does not exist reports on Linux. */
  const NOT_FOUND: IoError := IoError("No such file or directory (os error 2)")

  /** The specific kind of an error; `Nonexhaustive` is the hidden guard variant. */
  datatype ErrorKind = Io(err: IoError) | NothingPassed | Seek | Nonexhaustive

  /** An error of the crate: a box around its kind. */
  datatype Error = Error(boxed: ErrorKind) {

    /** The kind of this error, borrowed. */
    function Kind(): ErrorKind {
      boxed
    }

    /** The kind of this error, moved out of the box. */
    function IntoKind(): ErrorKind {
      boxed
    }
  }

  const NOTHING_PASSED_TEXT: string := "Cannot construct a `Concat` instance with no paths"
  const SEEK_TEXT: string := "Seek to a negative offset"

  /** Boxes a kind into an error; the kind reads back unchanged. */
  function New(kind: ErrorKind): (e: Error)
    ensures e.Kind() == kind
    ensures e.IntoKind() == kind
  {
    Error(kind)
  }

  /** The `?` conversion of an I/O error: kind `Io` wrapping that very error. */
  function FromIo(err: IoError): (e: Error)
    ensures e.Kind() == Io(err)
  {
    New(Io(err))
  }

  /**
   * The text an error displays. The hidden guard variant is unreachable when
   * displaying, so it is excluded here.
   */
  function Display(e: Error): (s: string)
    requires e.Kind() != Nonexhaustive
    ensures e.Kind().Io? ==> s == e.Kind().err.message
    ensures e.Kind() == NothingPassed ==> s == NOTHING_PASSED_TEXT
    ensures e.Kind() == Seek ==> s == SEEK_TEXT
  {
    match e.Kind()
    case Io(err) => err.message
    case NothingPassed => NOTHING_PASSED_TEXT
    case Seek => SEEK_TEXT
  }

  /** `Error::new(k).into_kind()` gives `k` back. */
  lemma IntoKindOfNew(k: ErrorKind)
    ensures New(k).IntoKind() == k
  {
  }

  /** Boxing is injective: distinct kinds give distinct errors. */
  lemma NewInjective(k1: ErrorKind, k2: ErrorKind)
    ensures New(k1) == New(k2) <==> k1 == k2
  {
  }

  /** A converted I/O error displays exactly as the I/O error does. */
  lemma DisplayOfIo(err: IoError)
    ensures Display(FromIo(err)) == err.message
  {
  }

  /** The two crate-defined kinds are told apart by their texts. */
  lemma DisplayTellsKindsApart()
    ensures Display(New(NothingPassed)) != Display(New(Seek))
  {
    assert |NOTHING_PASSED_TEXT| != |SEEK_TEXT|;
  }
}
