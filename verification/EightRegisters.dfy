// The eight working variables of the SHA-2 compressions and the places that the rotated names of the source refer to.

module EightRegisters {
  datatype Registers<W> = Registers(a: W, b: W, c: W, d: W, e: W, f: W, g: W, h: W)

  /** Eight distinct places in an array of eight. */
  predicate Distinct8(a: nat, b: nat, c: nat, d: nat, e: nat, f: nat, g: nat, h: nat) {
    && a < 8 && b < 8 && c < 8 && d < 8 && e < 8 && f < 8 && g < 8 && h < 8
    && a != b && a != c && a != d && a != e && a != f && a != g && a != h
    && b != c && b != d && b != e && b != f && b != g && b != h
    && c != d && c != e && c != f && c != g && c != h
    && d != e && d != f && d != g && d != h
    && e != f && e != g && e != h
    && f != g && f != h
    && g != h
  }

  /** The registers when their names stand for the places `a` to `h`. */
  function At<W>(s: seq<W>, a: nat, b: nat, c: nat, d: nat, e: nat, f: nat, g: nat, h: nat): Registers<W>
    requires |s| == 8 && a < 8 && b < 8 && c < 8 && d < 8 && e < 8 && f < 8 && g < 8 && h < 8
  {
    Registers(s[a], s[b], s[c], s[d], s[e], s[f], s[g], s[h])
  }

  function RegistersOf<W>(h: seq<W>): Registers<W>
    requires |h| == 8
  {
    At(h, 0, 1, 2, 3, 4, 5, 6, 7)
  }
}
