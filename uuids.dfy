/**
 * java.util.UUID as the service uses it: `UUID.toString()` to put an id into a token's
 * subject and `UUID.fromString(...)` to read it back.  A UUID is its 128 bits written as
 * 32 hexadecimal digits; the text form is the canonical 8-4-4-4-12 layout.
 */
module Uuids {
  import opened Wrappers

  type Nibble = n: int | 0 <= n < 16

  /** The 32 hexadecimal digits of a UUID, most significant first. */
  type Uuid = s: seq<Nibble> | |s| == 32 witness seq(32, i => 0)

  const HexDigits: string := "0123456789abcdef"

  /** Positions of the four dashes in the canonical text form. */
  predicate IsDashPosition(i: int) {
    i == 8 || i == 13 || i == 18 || i == 23
  }

  /** The value of one hexadecimal digit, either case, as UUID.fromString reads it. */
  function HexValue(c: char): (v: Option<Nibble>)
    ensures v.Some? <==> ('0' <= c <= '9' || 'a' <= c <= 'f' || 'A' <= c <= 'F')
    ensures v.Some? ==> (c == HexDigits[v.value] || c == Upper(HexDigits[v.value]))
  {
    if '0' <= c <= '9' then Some(c as int - '0' as int)
    else if 'a' <= c <= 'f' then Some(c as int - 'a' as int + 10)
    else if 'A' <= c <= 'F' then Some(c as int - 'A' as int + 10)
    else None
  }

  function Upper(c: char): char {
    if 'a' <= c <= 'z' then (c as int - 'a' as int + 'A' as int) as char else c
  }

  /** Lower-case hexadecimal text of a run of digits. */
  function Hex(ns: seq<Nibble>): (s: string)
    ensures |s| == |ns|
    ensures forall i :: 0 <= i < |ns| ==> HexValue(s[i]) == Some(ns[i])
  {
    seq(|ns|, i requires 0 <= i < |ns| => HexDigits[ns[i]])
  }

  /** The digits of a run of hexadecimal text, or None if any character is not a digit. */
  function UnHex(s: string): (r: Option<seq<Nibble>>)
    ensures r.Some? <==> forall i :: 0 <= i < |s| ==> HexValue(s[i]).Some?
    ensures r.Some? ==> |r.value| == |s| && forall i :: 0 <= i < |s| ==> HexValue(s[i]) == Some(r.value[i])
  {
    if forall i :: 0 <= i < |s| ==> HexValue(s[i]).Some? then
      Some(seq(|s|, i requires 0 <= i < |s| => HexValue(s[i]).value))
    else
      None
  }

  /** UUID.toString: the canonical 36-character form, lower case. */
  function ToString(u: Uuid): (s: string)
    ensures |s| == 36
    ensures forall i :: 0 <= i < 36 ==> (s[i] == '-' <==> IsDashPosition(i))
  {
    Hex(u[0..8]) + "-" + Hex(u[8..12]) + "-" + Hex(u[12..16]) + "-" + Hex(u[16..20]) + "-" + Hex(u[20..32])
  }

  /**
   * UUID.fromString for the canonical layout: exactly 36 characters, dashes at 8, 13, 18
   * and 23, hexadecimal digits of either case everywhere else.
   */
  function FromString(s: string): (r: Option<Uuid>)
    ensures r.Some? ==> |s| == 36 && forall i :: 0 <= i < 36 && IsDashPosition(i) ==> s[i] == '-'
  {
    if |s| != 36 || s[8] != '-' || s[13] != '-' || s[18] != '-' || s[23] != '-' then None
    else
      match (UnHex(s[0..8]), UnHex(s[9..13]), UnHex(s[14..18]), UnHex(s[19..23]), UnHex(s[24..36]))
      case (Some(a), Some(b), Some(c), Some(d), Some(e)) => Some(a + b + c + d + e)
      case _ => None
  }

  /** Reading back the text of a UUID gives the same UUID. */
  lemma {:induction false} FromStringToString(u: Uuid)
    ensures FromString(ToString(u)) == Some(u)
  {
    var s := ToString(u);
    assert s[0..8] == Hex(u[0..8]);
    assert s[9..13] == Hex(u[8..12]);
    assert s[14..18] == Hex(u[12..16]);
    assert s[19..23] == Hex(u[16..20]);
    assert s[24..36] == Hex(u[20..32]);
    UnHexHex(u[0..8]);
    UnHexHex(u[8..12]);
    UnHexHex(u[12..16]);
    UnHexHex(u[16..20]);
    UnHexHex(u[20..32]);
    assert u[0..8] + u[8..12] + u[12..16] + u[16..20] + u[20..32] == u;
  }

  lemma UnHexHex(ns: seq<Nibble>)
    ensures UnHex(Hex(ns)) == Some(ns)
  {
    var r := UnHex(Hex(ns));
    assert r.Some?;
    assert |r.value| == |ns|;
    forall i | 0 <= i < |ns| ensures r.value[i] == ns[i] {
      assert HexValue(Hex(ns)[i]) == Some(r.value[i]);
      assert HexValue(Hex(ns)[i]) == Some(ns[i]);
    }
    assert r.value == ns;
  }

  /** Two UUIDs with the same text are the same UUID. */
  lemma ToStringInjective(u: Uuid, v: Uuid)
    requires ToString(u) == ToString(v)
    ensures u == v
  {
    FromStringToString(u);
    FromStringToString(v);
  }
}
