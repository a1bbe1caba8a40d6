/** The data that flows between the components: bytes (the Access field),
    boxed values carried by events and writes, and `byte.TryParse`. */
module Values {
  import opened Wrappers
  import opened Text

  newtype byte = x: int | 0 <= x < 256

  /** A boxed value (`object`) as the events and writes carry it. Doubles are
      modelled as reals: the core never computes with them, it only moves them.
      Any other object is known by its `ToString()` text. */
  datatype Value = Double(d: real) | Other(text: string)

  /** `object.ToString()`; how a double prints is the runtime's business,
      so it is a parameter. */
  function TextOf(v: Value, formatDouble: real -> string): string {
    match v
    case Double(d) => formatDouble(d)
    case Other(t) => t
  }

  /** `byte.TryParse(s)` (NumberStyles.Integer, invariant signs): optional white
      space, an optional sign, ASCII digits, a value of at most 255; a minus
      sign is accepted only for zero. */
  function ByteTryParse(s: string): Option<byte> {
    var t := TrimWith(s, NumberSpace);
    var signed := t != [] && (t[0] == '+' || t[0] == '-');
    var digits := if signed then t[1..] else t;
    if IsDigits(digits) && DigitsValue(digits) <= 255 && (t[0] == '-' ==> DigitsValue(digits) == 0) then
      Some(DigitsValue(digits) as byte)
    else
      None
  }

  /** Every byte's decimal text parses back to that byte: Access accepts the
      whole range 0..255. */
  lemma ByteTryParseRoundTrip(b: byte)
    ensures ByteTryParse(NatToString(b as nat)) == Some(b)
  {
    var s := NatToString(b as nat);
    TrimWithUnchanged(s, NumberSpace);
    NatToStringRoundTrip(b as nat);
  }

  /** Decimal text of a number above 255 does not parse: the byte range is
      the whole of what Access can hold. */
  lemma ByteTryParseRejectsLarge(n: nat)
    requires n > 255
    ensures ByteTryParse(NatToString(n)).None?
  {
    var s := NatToString(n);
    TrimWithUnchanged(s, NumberSpace);
    NatToStringRoundTrip(n);
  }

  /** Blank text does not parse. */
  lemma ByteTryParseRejectsBlank(s: string)
    requires AllSpace(s, NumberSpace)
    ensures ByteTryParse(s).None?
  {
    TrimWithSpec(s, NumberSpace);
  }
}
