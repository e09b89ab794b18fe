/** Shortening of over-long SBML identifiers. Python's salted `hash()` is
    the parameter `hash`; reading and writing the SBML document are not
    modelled, its objects are `SbmlObject`s updated in place. */
module CleanSbml {

  // ---------------------------------------------------------------------
  // Decimal digits

  function DigitChar(d: nat): (c: char)
    requires d < 10
    ensures '0' <= c <= '9'
  {
    "0123456789"[d]
  }

  function DigitValue(c: char): nat
    requires '0' <= c <= '9'
  {
    (c - '0') as nat
  }

  /** `str(n)` for a natural number: its decimal digits, no leading zero. */
  function DecimalString(n: nat): (s: string)
    ensures |s| >= 1
    ensures forall i :: 0 <= i < |s| ==> '0' <= s[i] <= '9'
  {
    if n < 10 then [DigitChar(n)] else DecimalString(n / 10) + [DigitChar(n % 10)]
  }

  /** `int(s)` for a string of decimal digits. */
  function ParseDecimal(s: string): nat
    requires forall i :: 0 <= i < |s| ==> '0' <= s[i] <= '9'
  {
    if s == [] then 0 else ParseDecimal(s[..|s| - 1]) * 10 + DigitValue(s[|s| - 1])
  }

  /** The digits read back give the number. */
  lemma {:induction false} DecimalRoundTrip(n: nat)
    ensures ParseDecimal(DecimalString(n)) == n
  {
    var s := DecimalString(n);
    if n >= 10 {
      DecimalRoundTrip(n / 10);
      assert s[..|s| - 1] == DecimalString(n / 10);
    }
    assert DigitValue(DigitChar(n % 10)) == n % 10;
  }

  /** A number below 10^k has at most k digits. */
  lemma {:induction false} DecimalLength(n: nat, k: nat)
    requires n < Pow10(k)
    ensures |DecimalString(n)| <= (if k == 0 then 1 else k)
  {
    if n >= 10 {
      if k < 2 {
        assert false;
      }
      DecimalLength(n / 10, k - 1);
    }
  }

  function Pow10(k: nat): (p: nat)
    ensures p >= 1
  {
    if k == 0 then 1 else 10 * Pow10(k - 1)
  }

  // ---------------------------------------------------------------------
  // truncate_id

  /** `s[:n]` for n >= 0. */
  function PyPrefix(s: string, n: nat): (p: string)
    ensures p <= s
    ensures |p| == if n < |s| then n else |s|
  {
    if n < |s| then s[..n] else s
  }

  function Abs(h: int): nat
  {
    if h < 0 then -h else h
  }

  /** The first `maxLen / 2` characters of the id, an underscore, and the
      absolute value of its hash modulo 10^6 in decimal. */
  function TruncateId(original: string, maxLen: nat, hash: int): (r: string)
  {
    PyPrefix(original, maxLen / 2) + "_" + DecimalString(Abs(hash) % 1000000)
  }

  /** The new id keeps the first half-maximum characters, then an
      underscore and one to six digits that read back as the hash modulo
      10^6; it is at most `maxLen / 2 + 7` long, so at most `maxLen` once
      `maxLen` is 13 or more. */
  lemma TruncateIdShape(original: string, maxLen: nat, hash: int)
    ensures var r := TruncateId(original, maxLen, hash);
            var keep := PyPrefix(original, maxLen / 2);
            r[..|keep|] == keep && r[|keep|] == '_' &&
            1 <= |r| - |keep| - 1 <= 6 &&
            (forall i :: |keep| < i < |r| ==> '0' <= r[i] <= '9') &&
            ParseDecimal(r[|keep| + 1..]) == Abs(hash) % 1000000 &&
            |r| <= maxLen / 2 + 7 &&
            (maxLen >= 13 ==> |r| <= maxLen)
  {
    var keep := PyPrefix(original, maxLen / 2);
    var digits := DecimalString(Abs(hash) % 1000000);
    var r := TruncateId(original, maxLen, hash);
    assert r == keep + "_" + digits;
    assert Pow10(6) == 1000000;
    DecimalLength(Abs(hash) % 1000000, 6);
    DecimalRoundTrip(Abs(hash) % 1000000);
    assert r[|keep| + 1..] == digits;
  }

  // ---------------------------------------------------------------------
  // fix_long_ids

  /** A reaction, species, parameter or compartment of the document. */
  class SbmlObject {
    var id: string
    var name: string

    constructor (id: string, name: string)
      ensures this.id == id && this.name == name
    {
      this.id := id;
      this.name := name;
    }
  }

  /** The id an object has after the pass. */
  function FixedId(id: string, maxLen: nat, hash: string -> int): (r: string)
  {
    if |id| > maxLen then TruncateId(id, maxLen, hash(id)) else id
  }

  /** The name an object has after the pass: the new id when it was rewritten. */
  function FixedName(id: string, name: string, maxLen: nat, hash: string -> int): string
  {
    if |id| > maxLen then TruncateId(id, maxLen, hash(id)) else name
  }

  /** Ids at most `maxLen` long are kept; with `maxLen` at least 13 no id is
      longer than `maxLen` afterwards, and a rewritten id starts with the
      first `maxLen / 2` characters of the old one. */
  lemma FixedIdBounded(id: string, maxLen: nat, hash: string -> int)
    ensures |id| <= maxLen ==> FixedId(id, maxLen, hash) == id
    ensures maxLen >= 13 ==> |FixedId(id, maxLen, hash)| <= maxLen
    ensures |id| > maxLen ==> id[..maxLen / 2] <= FixedId(id, maxLen, hash)
  {
    if |id| > maxLen {
      TruncateIdShape(id, maxLen, hash(id));
    }
  }

  /** Every object of the four collections whose id is longer
      than `maxLen` gets the truncated id as its id and as its name; every
      other object is left as it was. */
  method FixLongIds(collections: seq<seq<SbmlObject>>, maxLen: nat, hash: string -> int)
    requires forall c, i, c', i' ::
               (0 <= c < |collections| && 0 <= i < |collections[c]| &&
                0 <= c' < |collections| && 0 <= i' < |collections[c']| &&
                collections[c][i] == collections[c'][i']) ==> c == c' && i == i'
    modifies set c, i | 0 <= c < |collections| && 0 <= i < |collections[c]| :: collections[c][i]
    ensures forall c, i :: 0 <= c < |collections| && 0 <= i < |collections[c]| ==>
              collections[c][i].id == FixedId(old(collections[c][i].id), maxLen, hash) &&
              collections[c][i].name == FixedName(old(collections[c][i].id), old(collections[c][i].name), maxLen, hash)
  {
    for c := 0 to |collections|
      invariant forall c0, i :: 0 <= c0 < |collections| && 0 <= i < |collections[c0]| ==>
                  if c0 < c then
                    collections[c0][i].id == FixedId(old(collections[c0][i].id), maxLen, hash) &&
                    collections[c0][i].name == FixedName(old(collections[c0][i].id), old(collections[c0][i].name), maxLen, hash)
                  else
                    collections[c0][i].id == old(collections[c0][i].id) &&
                    collections[c0][i].name == old(collections[c0][i].name)
    {
      var objects := collections[c];
      for i := 0 to |objects|
        invariant forall c0, i0 :: 0 <= c0 < |collections| && 0 <= i0 < |collections[c0]| ==>
                    if c0 < c || (c0 == c && i0 < i) then
                      collections[c0][i0].id == FixedId(old(collections[c0][i0].id), maxLen, hash) &&
                      collections[c0][i0].name == FixedName(old(collections[c0][i0].id), old(collections[c0][i0].name), maxLen, hash)
                    else
                      collections[c0][i0].id == old(collections[c0][i0].id) &&
                      collections[c0][i0].name == old(collections[c0][i0].name)
      {
        var obj := objects[i];
        if |obj.id| > maxLen {
          var newId := TruncateId(obj.id, maxLen, hash(obj.id));
          obj.id := newId;
          obj.name := newId;
        }
      }
    }
  }
}
