/** The Python primitives the modelled code calls but whose definitions are
    not part of this model: float() on a string, math.cos, the ':.6f'
    format of a float, and str.isalnum on one character. Every operation
    that uses one receives them as a `Runtime` value, so each result is
    stated for whatever these primitives compute. */
module Runtime {
  import opened Text

  datatype Runtime = Runtime(
    parseFloat: string -> Option<real>,  // float(s); None where Python raises ValueError
    cos: real -> real,                   // math.cos
    fixed6: real -> string,              // format(x, '.6f')
    isAlnum: char -> bool                // str.isalnum on a single character
  )

  /** Facts about CPython that some properties rely on: no whitespace
      character, '=', '-', '[' or '_' is alphanumeric, a ':.6f'
      rendering contains no whitespace and float() reads it back, and
      float("0") succeeds. */
  ghost predicate Plausible(rt: Runtime) {
    && (forall c :: rt.isAlnum(c) ==> !IsSpace(c))
    && !rt.isAlnum('=') && !rt.isAlnum('-') && !rt.isAlnum('[') && !rt.isAlnum('_')
    && (forall x :: NoSpace(rt.fixed6(x)))
    && (forall x :: rt.parseFloat(rt.fixed6(x)).Some?)
    && rt.parseFloat("0").Some?
  }

  /** str.isalnum is true of every ASCII letter and digit. */
  ghost predicate AsciiAlnum(rt: Runtime) {
    forall c :: ('a' <= c <= 'z' || 'A' <= c <= 'Z' || '0' <= c <= '9') ==> rt.isAlnum(c)
  }
}
