/**
 * Route announcements whose fields range from fully symbolic to fully
 * specified (model/announcement.py).
 *
 * A `SymbolicField` keeps 32 address positions in a fixed-size bit array,
 * two bits per position (see module Encoding). A `RouteAnnouncement` owns an
 * IP-prefix field and a next-hop field; `Filter` narrows one of them in place
 * by ANDing it with a pattern field.
 */
module Announcement {
  import opened Encoding

  /** The announcement fields a route map can name. */
  datatype Field = IpPrefix | NextHop | AsPath | Med | LocalPref | Communities

  /** An attribute value as the configuration supplies it; never inspected. */
  type Value = string

  datatype Option<T> = None | Some(value: T)

  /** An IPv4 address as a 32-bit number. */
  type Address = x: nat | x < 0x1_0000_0000

  type PrefixLength = n: nat | n <= 32

  /** A parsed `a.b.c.d/len` literal; host bits may be set. */
  datatype Prefix = Prefix(addr: Address, len: PrefixLength)

  /** How `__str__` shows a field: address text, or the bit array as the bitstring library prints it. */
  datatype Rendering = Text(text: string) | RawBits(bits: seq<bool>)

  // ---------------------------------------------------------------------
  // Specification of the prefix a field encodes

  /** The field create_from_prefix builds: the first `len` address bits, most significant first, then wildcards. */
  function PrefixPositions(p: Prefix): (ps: seq<Trit>)
    ensures |ps| == 32
  {
    seq(32, i requires 0 <= i < 32 =>
      if i < p.len then (if NatToBits(p.addr, 32)[i] then One else Zero) else Wildcard)
  }

  /** The network address of a prefix: the address with its host bits cleared. */
  function NetworkAddress(p: Prefix): int
  {
    p.addr / Pow2(32 - p.len) * Pow2(32 - p.len)
  }

  /** Dotted-quad text of a 32-bit number, then `/` and the length. */
  function FormatPrefix(x: int, len: nat): string
  {
    Dec(x / 16777216 % 256) + "." + Dec(x / 65536 % 256) + "." + Dec(x / 256 % 256) + "." + Dec(x % 256)
    + "/" + Dec(len)
  }

  /** Index of the first wildcard position, or |ps| when there is none. */
  function FirstWildcard(ps: seq<Trit>): (k: nat)
    ensures k <= |ps|
    ensures forall i :: 0 <= i < k ==> ps[i] != Wildcard
    ensures k < |ps| ==> ps[k] == Wildcard
  {
    if ps == [] then 0 else if ps[0] == Wildcard then 0 else 1 + FirstWildcard(ps[1..])
  }

  /** The decoding loop of `__str__` meets no impossible position before it stops. */
  predicate Renderable(ps: seq<Trit>)
  {
    forall i :: 0 <= i < FirstWildcard(ps) ==> ps[i] != Impossible
  }

  /** The 32 address bits `__str__` reads off: committed positions, then zeros. */
  function CommittedBits(ps: seq<Trit>): (bits: seq<bool>)
    requires |ps| == 32
    ensures |bits| == 32
  {
    var k := FirstWildcard(ps);
    seq(k, i requires 0 <= i < k => ps[i] == One) + Zeros(32 - k)
  }

  /**
   * What `__str__` prints for an address field: four octets, then the
   * committed length: at least one digit for each of the five numbers
   * besides the three dots and the slash, and no other character.
   */
  function Render(ps: seq<Trit>): (r: string)
    requires |ps| == 32 && Renderable(ps)
    ensures '/' in r && |r| >= 9
    ensures forall c :: c in r ==> c in "0123456789./"
  {
    var bits := CommittedBits(ps);
    Dec(BitsToNat(bits[0..8])) + "." + Dec(BitsToNat(bits[8..16])) + "."
    + Dec(BitsToNat(bits[16..24])) + "." + Dec(BitsToNat(bits[24..32]))
    + "/" + Dec(FirstWildcard(ps))
  }

  /**
   * The loop of `create_from_prefix` that writes the bit string: 10 for a
   * one and 01 for a zero over the first `len` address bits, then 11 for
   * every remaining position.
   */
  method PrefixBits(p: Prefix) returns (formatted: seq<bool>)
    ensures |formatted| == 64 && Positions(formatted) == PrefixPositions(p)
  {
    var binIpPrefix := NatToBits(p.addr, 32);
    formatted := [];
    for i := 0 to p.len
      invariant |formatted| == 2 * i
      invariant forall j :: 0 <= j < i ==>
        Decode(formatted[2 * j], formatted[2 * j + 1]) == PrefixPositions(p)[j]
    {
      if binIpPrefix[i] {
        formatted := formatted + [true, false];
      } else {
        formatted := formatted + [false, true];
      }
    }
    ghost var committed := formatted;
    formatted := formatted + Ones(2 * (32 - p.len));
    forall j | 0 <= j < 32
      ensures Positions(formatted)[j] == PrefixPositions(p)[j]
    {
      if j < p.len {
        assert formatted[2 * j] == committed[2 * j] && formatted[2 * j + 1] == committed[2 * j + 1];
      } else {
        assert formatted[2 * j] && formatted[2 * j + 1];
      }
    }
  }

  /** BitArray's in-place `&=`: every bit of `a` is ANDed with the pattern's bit. */
  method AndInPlace(a: array<bool>, pattern: seq<bool>)
    requires |pattern| == a.Length
    modifies a
    ensures a[..] == And(old(a[..]), pattern)
  {
    forall k | 0 <= k < a.Length {
      a[k] := a[k] && pattern[k];
    }
  }

  // ---------------------------------------------------------------------

  class SymbolicField {
    const fieldType: Field
    const originalLength: nat
    const bitarray: array<bool>

    ghost predicate Valid()
    {
      bitarray.Length == 2 * originalLength
    }

    predicate IsAddress()
    {
      fieldType == IpPrefix || fieldType == NextHop
    }

    /** A fresh field of `length` positions, all wildcard (every bit set). */
    constructor (fieldType: Field, length: nat)
      requires length > 0
      ensures Valid() && this.fieldType == fieldType && originalLength == length
      ensures fresh(bitarray) && bitarray[..] == Ones(2 * length)
    {
      this.fieldType := fieldType;
      originalLength := length;
      bitarray := new bool[2 * length](_ => true);
    }

    /** `__len__`: the number of stored bits, two per position. */
    function Len(): (n: nat)
      requires Valid()
      ensures n == 2 * originalLength
    {
      bitarray.Length
    }

    /**
     * `__str__`. An address field is decoded position by position until the
     * first wildcard, whose index is the prefix length; the remaining
     * positions are filled with zeros and the 32 bits are printed as a dotted
     * quad. Other fields print their raw bits.
     */
    method ToString() returns (r: Rendering)
      requires Valid()
      requires IsAddress() ==> bitarray.Length >= 64 && Renderable(Positions(bitarray[..64]))
      ensures IsAddress() ==> r == Text(Render(Positions(bitarray[..64])))
      ensures !IsAddress() ==> r == RawBits(bitarray[..])
    {
      if fieldType == IpPrefix || fieldType == NextHop {
        ghost var ps := Positions(bitarray[..64]);
        var fip := bitarray;
        var ipPrefix: seq<bool> := [];
        var prefixLen := 32;
        var i := 0;
        while i < 32
          invariant 0 <= i <= 32 && prefixLen == 32
          invariant forall j :: 0 <= j < i ==> ps[j] != Wildcard
          invariant ipPrefix == seq(i, j requires 0 <= j < i => ps[j] == One)
        {
          assert ps[i] == Decode(fip[2 * i], fip[2 * i + 1]);
          if !fip[2 * i] && !fip[2 * i + 1] {
            assert false;
          } else if !fip[2 * i] && fip[2 * i + 1] {
            ipPrefix := ipPrefix + [false];
          } else if fip[2 * i] && !fip[2 * i + 1] {
            ipPrefix := ipPrefix + [true];
          } else {
            prefixLen := i;
            ipPrefix := ipPrefix + Zeros(32 - prefixLen);
            break;
          }
          i := i + 1;
        }
        assert prefixLen == FirstWildcard(ps) && ipPrefix == CommittedBits(ps);
        r := Text(Dec(BitsToNat(ipPrefix[0..8])) + "." + Dec(BitsToNat(ipPrefix[8..16])) + "."
                  + Dec(BitsToNat(ipPrefix[16..24])) + "." + Dec(BitsToNat(ipPrefix[24..32]))
                  + "/" + Dec(prefixLen));
      } else {
        r := RawBits(bitarray[..]);
      }
    }

    /**
     * `create_from_prefix`: the first `len` positions carry the address bits
     * (10 for a one, 01 for a zero), the rest are wildcard (11). A `type` of 0
     * makes an IP-prefix field, anything else a next-hop field.
     */
    static method CreateFromPrefix(p: Prefix, fieldKind: int) returns (f: SymbolicField)
      ensures fresh(f) && fresh(f.bitarray) && f.Valid() && f.originalLength == 32
      ensures f.fieldType == (if fieldKind == 0 then IpPrefix else NextHop)
      ensures Positions(f.bitarray[..]) == PrefixPositions(p)
    {
      var formatted := PrefixBits(p);
      if fieldKind == 0 {
        f := new SymbolicField(IpPrefix, 32);
      } else {
        f := new SymbolicField(NextHop, 32);
      }
      AndInPlace(f.bitarray, formatted);
      assert f.bitarray[..] == formatted;
    }
  }

  // ---------------------------------------------------------------------

  class RouteAnnouncement {
    const ipPrefix: SymbolicField
    const nextHop: SymbolicField
    const asPath: Option<Value>
    const med: Option<Value>
    const localPref: Option<Value>
    const communities: Option<Value>

    /** Two distinct 32-position fields of the right types. */
    ghost predicate Valid()
    {
      && ipPrefix.Valid() && ipPrefix.originalLength == 32 && ipPrefix.fieldType == IpPrefix
      && nextHop.Valid() && nextHop.originalLength == 32 && nextHop.fieldType == NextHop
      && ipPrefix.bitarray != nextHop.bitarray
    }

    /**
     * A given prefix or next hop becomes a concrete prefix field; a missing
     * one becomes an all-wildcard field. The other attributes are stored.
     */
    constructor (ip: Option<Prefix>, nh: Option<Prefix>, asPath: Option<Value>, med: Option<Value>,
                 localPref: Option<Value>, communities: Option<Value>)
      ensures Valid() && fresh(ipPrefix.bitarray) && fresh(nextHop.bitarray)
      ensures ip.Some? ==> Positions(ipPrefix.bitarray[..]) == PrefixPositions(ip.value)
      ensures ip.None? ==> ipPrefix.bitarray[..] == Ones(64)
      ensures nh.Some? ==> Positions(nextHop.bitarray[..]) == PrefixPositions(nh.value)
      ensures nh.None? ==> nextHop.bitarray[..] == Ones(64)
      ensures this.asPath == asPath && this.med == med
      ensures this.localPref == localPref && this.communities == communities
    {
      var ipField, nhField;
      if ip.Some? {
        ipField := SymbolicField.CreateFromPrefix(ip.value, 0);
      } else {
        ipField := new SymbolicField(IpPrefix, 32);
      }
      if nh.Some? {
        nhField := SymbolicField.CreateFromPrefix(nh.value, 1);
      } else {
        nhField := new SymbolicField(NextHop, 32);
      }
      ipPrefix := ipField;
      nextHop := nhField;
      this.asPath := asPath;
      this.med := med;
      this.localPref := localPref;
      this.communities := communities;
    }

    /** `set_field`: every setter it dispatches to is a no-op, so nothing changes. */
    method SetField(field: Field, value: Value)
      requires Valid()
      modifies ipPrefix.bitarray, nextHop.bitarray
      ensures unchanged(ipPrefix.bitarray, nextHop.bitarray)
    {
      match field
      case IpPrefix =>
      case NextHop =>
      case AsPath =>
      case Med =>
      case LocalPref =>
      case Communities =>
    }

    /**
     * `filter`: an IP-prefix or next-hop pattern is ANDed into that field in
     * place; the other field, and every filter on another field, changes
     * nothing. The source formats debug messages with `__str__` around the
     * AND, which raises `ValueError` on a field left with 8 or more impossible
     * positions before its first wildcard; that exception is not modelled.
     */
    method Filter(field: Field, pattern: SymbolicField)
      requires Valid()
      requires field == IpPrefix || field == NextHop ==> pattern.bitarray.Length == 64
      modifies ipPrefix.bitarray, nextHop.bitarray
      ensures ipPrefix.bitarray[..] ==
        if field == IpPrefix then And(old(ipPrefix.bitarray[..]), old(pattern.bitarray[..]))
        else old(ipPrefix.bitarray[..])
      ensures nextHop.bitarray[..] ==
        if field == NextHop then And(old(nextHop.bitarray[..]), old(pattern.bitarray[..]))
        else old(nextHop.bitarray[..])
    {
      if field == IpPrefix {
        AndInPlace(ipPrefix.bitarray, pattern.bitarray[..]);
      } else if field == NextHop {
        AndInPlace(nextHop.bitarray, pattern.bitarray[..]);
      }
    }
  }

  // ---------------------------------------------------------------------
  // Properties of prefix fields and of their rendering

  /** A prefix field commits exactly `len` positions and has no impossible one. */
  lemma PrefixPositionsCommitLen(p: Prefix)
    ensures FirstWildcard(PrefixPositions(p)) == p.len
    ensures forall i :: 0 <= i < 32 ==> PrefixPositions(p)[i] != Impossible
    ensures Renderable(PrefixPositions(p))
  {
    var ps := PrefixPositions(p);
    assert p.len < 32 ==> ps[p.len] == Wildcard;
    assert forall i :: 0 <= i < p.len ==> ps[i] != Wildcard;
  }

  /** The octet `j` of a 32-bit string is the matching byte of the number it denotes. */
  lemma OctetOf(bits: seq<bool>, j: nat)
    requires |bits| == 32 && j < 4
    ensures BitsToNat(bits[8 * j..8 * j + 8]) == BitsToNat(bits) / Pow2(24 - 8 * j) % 256
  {
    var a, b, c := bits[..8 * j], bits[8 * j..8 * j + 8], bits[8 * j + 8..];
    assert bits == (a + b) + c;
    BitsToNatAppend(a + b, c);
    BitsToNatAppend(a, b);
    Pow2Values();
    assert |c| == 24 - 8 * j && |b| == 8;
    ByteOf(BitsToNat(bits), BitsToNat(a), BitsToNat(b), BitsToNat(c), Pow2(24 - 8 * j));
  }

  /** Dividing `(hi * 256 + lo) * d + r` by `d` and keeping the low byte gives `lo`. */
  lemma ByteOf(x: nat, hi: nat, lo: nat, r: nat, d: nat)
    requires lo < 256 && r < d && x == (hi * 256 + lo) * d + r
    ensures x / d % 256 == lo
  {
    DivModUnique(x, d, hi * 256 + lo, r);
    DivModUnique(hi * 256 + lo, 256, hi, lo);
  }

  /** The network part of a 32-bit address fits in `len` bits. */
  lemma PrefixFits(addr: Address, len: PrefixLength)
    ensures addr / Pow2(32 - len) < Pow2(len)
  {
    var d, m := Pow2(32 - len), Pow2(len);
    Pow2Add(len, 32 - len);
    Pow2Values();
    assert m * d == 0x1_0000_0000;
    DivMod(addr, d);
    var q: nat := addr / d;
    if q >= m {
      MulLe(m, q, d);
    }
  }

  /** Committed bits of a prefix field denote its network address. */
  lemma CommittedBitsOfPrefix(p: Prefix)
    ensures BitsToNat(CommittedBits(PrefixPositions(p))) == NetworkAddress(p)
  {
    var ps := PrefixPositions(p);
    PrefixPositionsCommitLen(p);
    var host := 32 - p.len;
    var d := Pow2(host);
    DivMod(p.addr, d);
    var q: nat := p.addr / d;
    var prefix := NatToBits(q, p.len);
    NatToBitsPrefix(p.addr, 32, p.len);
    assert CommittedBits(ps) == prefix + Zeros(host);
    BitsToNatAppend(prefix, Zeros(host));
    BitsToNatZeros(host);
    BitsToNatOfNatToBits(q, p.len);
    PrefixFits(p.addr, p.len);
    DivModUnique(q, Pow2(p.len), 0, q);
  }

  /** The four octets of a 32-bit number, most significant first. */
  lemma Octets(bits: seq<bool>)
    requires |bits| == 32
    ensures BitsToNat(bits[0..8]) == BitsToNat(bits) / 16777216 % 256
    ensures BitsToNat(bits[8..16]) == BitsToNat(bits) / 65536 % 256
    ensures BitsToNat(bits[16..24]) == BitsToNat(bits) / 256 % 256
    ensures BitsToNat(bits[24..32]) == BitsToNat(bits) % 256
  {
    Pow2Values();
    OctetOf(bits, 0);
    OctetOf(bits, 1);
    OctetOf(bits, 2);
    OctetOf(bits, 3);
  }

  /**
   * Round trip: the text of a field made from `addr/len` is the network
   * address in dotted-quad form followed by `/len`.
   */
  lemma RenderPrefix(p: Prefix)
    ensures Renderable(PrefixPositions(p))
    ensures Render(PrefixPositions(p)) == FormatPrefix(NetworkAddress(p), p.len)
  {
    var ps := PrefixPositions(p);
    PrefixPositionsCommitLen(p);
    var bits := CommittedBits(ps);
    CommittedBitsOfPrefix(p);
    Octets(bits);
  }

  /** Positions after the first wildcard do not affect the text. */
  lemma RenderIgnoresTail(ps: seq<Trit>, qs: seq<Trit>)
    requires |ps| == 32 && |qs| == 32 && Renderable(ps)
    requires forall i :: 0 <= i <= FirstWildcard(ps) && i < 32 ==> qs[i] == ps[i]
    ensures FirstWildcard(qs) == FirstWildcard(ps)
    ensures Renderable(qs) && Render(qs) == Render(ps)
  {
    assert CommittedBits(qs) == CommittedBits(ps);
  }
}
