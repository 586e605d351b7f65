/**
  * Key slots and the ratchet window shared by frame and data-packet decryption. The AEAD (sections
  * 2.1 and 2.2 of RFC 5116), the key derivation and the ratchet step are functions; what is assumed of
  * them is `Crypto.Valid`.
  */
module KeyRing {
  import opened Wire

  const TAG_SIZE := 16
  const IV_SIZE := 12

  /** A sealed payload as received: nonce, associated data, ciphertext with tag. */
  datatype Box = Box(iv: seq<byte>, header: seq<byte>, sealed: seq<byte>)

  datatype Crypto = Crypto(
    seal: (seq<byte>, seq<byte>, seq<byte>, seq<byte>) -> Option<seq<byte>>,
    open: (seq<byte>, Box) -> Option<seq<byte>>,
    ratchet: seq<byte> -> seq<byte>,
    derive: seq<byte> -> Option<seq<byte>>)
  {
    function Seal(key: seq<byte>, iv: seq<byte>, header: seq<byte>, plain: seq<byte>): Option<seq<byte>> {
      seal(key, iv, header, plain)
    }

    function Open(key: seq<byte>, box: Box): Option<seq<byte>> { open(key, box) }

    function Ratchet(material: seq<byte>): seq<byte> { ratchet(material) }

    function Derive(material: seq<byte>): Option<seq<byte>> { derive(material) }

    /** What was sealed opens again under the same key, nonce and header; the tag is 16 bytes. */
    ghost predicate Valid() {
      forall key, iv, header, plain :: Seal(key, iv, header, plain).Some? ==>
        var sealed := Seal(key, iv, header, plain).value;
        |sealed| == |plain| + TAG_SIZE && Open(key, Box(iv, header, sealed)) == Some(plain)
    }
  }

  datatype KeySet = KeySet(material: seq<byte>, key: seq<byte>)

  // ----- Which key of the window opens a box -----

  datatype Hit = Hit(k: nat, keys: KeySet, plain: seq<byte>)

  /** Try `material` as the k-th key of the window, then ratchet while the window lasts. */
  function SearchFrom(c: Crypto, material: seq<byte>, k: nat, window: int, box: Box): Option<Hit>
    decreases window - k
  {
    var key := c.Derive(material);
    if key.None? || (k > 0 && material == []) then None
    else if c.Open(key.value, box).Some? then Some(Hit(k, KeySet(material, key.value), c.Open(key.value, box).value))
    else if k < window then SearchFrom(c, c.Ratchet(material), k + 1, window, box)
    else None
  }

  function Search(c: Crypto, material: seq<byte>, window: int, box: Box): Option<Hit> {
    SearchFrom(c, material, 0, window, box)
  }

  /** ratchet^k(material) */
  function Ratcheted(c: Crypto, material: seq<byte>, k: nat): seq<byte> {
    if k == 0 then material else c.Ratchet(Ratcheted(c, material, k - 1))
  }

  /** The k-th key of the window can be computed. */
  predicate Usable(c: Crypto, material: seq<byte>, k: nat) {
    c.Derive(Ratcheted(c, material, k)).Some? && (k > 0 ==> Ratcheted(c, material, k) != [])
  }

  predicate OpensAt(c: Crypto, material: seq<byte>, k: nat, box: Box) {
    Usable(c, material, k) && c.Open(c.Derive(Ratcheted(c, material, k)).value, box).Some?
  }

  /** The search reports the least k within the window whose key opens the box, before any unusable key. */
  ghost predicate IsLeast(c: Crypto, material: seq<byte>, from: nat, window: int, box: Box, r: Option<Hit>) {
    match r
    case Some(h) =>
      && from <= h.k && (h.k == from || h.k <= window)
      && h.keys.material == Ratcheted(c, material, h.k) && c.Derive(h.keys.material) == Some(h.keys.key)
      && OpensAt(c, material, h.k, box) && c.Open(h.keys.key, box) == Some(h.plain)
      && forall j :: from <= j < h.k ==> !OpensAt(c, material, j, box)
    case None =>
      forall j :: from <= j && (j == from || j <= window) && OpensAt(c, material, j, box) ==>
        exists u :: from <= u < j && !Usable(c, material, u)
  }

  lemma {:induction false} SearchFromIsLeast(c: Crypto, material: seq<byte>, k: nat, window: int, box: Box)
    ensures IsLeast(c, material, k, window, box, SearchFrom(c, Ratcheted(c, material, k), k, window, box))
    decreases window - k
  {
    var here := Ratcheted(c, material, k);
    var r := SearchFrom(c, here, k, window, box);
    if Usable(c, material, k) && !OpensAt(c, material, k, box) && k < window {
      assert Ratcheted(c, material, k + 1) == c.Ratchet(here);
      SearchFromIsLeast(c, material, k + 1, window, box);
      if r.None? {
        forall j | k <= j && (j == k || j <= window) && OpensAt(c, material, j, box)
          ensures exists u :: k <= u < j && !Usable(c, material, u)
        {
          var u :| k + 1 <= u < j && !Usable(c, material, u);
        }
      }
    }
  }

  /**
    * The ratchet window: success means the least k for which ratchet^k(initial) gives a key that opens
    * the payload, with k = 0 or k within the window; failure means there is none before the first key
    * that cannot be derived.
    */
  lemma RatchetWindow(c: Crypto, material: seq<byte>, window: int, box: Box)
    ensures IsLeast(c, material, 0, window, box, Search(c, material, window, box))
  {
    SearchFromIsLeast(c, material, 0, window, box);
  }

  /** The current key is tried first. */
  lemma SearchHitsAtOnce(c: Crypto, keys: KeySet, window: int, box: Box, plain: seq<byte>)
    requires c.Derive(keys.material) == Some(keys.key) && c.Open(keys.key, box) == Some(plain)
    ensures Search(c, keys.material, window, box) == Some(Hit(0, keys, plain))
  {
  }

  // ----- The slots -----

  class ParticipantKeyHandler {
    const crypto: Crypto
    const slots: array<Option<KeySet>>
    var hasValidKey: bool

    /** Every key in a slot was derived from the material next to it. */
    ghost predicate Valid()
      reads this, slots
    {
      forall i :: 0 <= i < slots.Length && slots[i].Some? ==>
        crypto.Derive(slots[i].value.material) == Some(slots[i].value.key)
    }

    constructor (crypto: Crypto, ringSize: nat)
      ensures Valid() && fresh(slots) && slots.Length == ringSize && !hasValidKey && this.crypto == crypto
      ensures forall i :: 0 <= i < ringSize ==> slots[i] == None
    {
      this.crypto := crypto;
      slots := new Option<KeySet>[ringSize](_ => None);
      hasValidKey := false;
    }

    method SetKeyFromMaterial(material: seq<byte>, index: nat)
      requires Valid() && index < slots.Length
      modifies slots
      ensures Valid()
      ensures slots[..] == old(slots[..])[index :=
                var key := crypto.Derive(material);
                if key.Some? then Some(KeySet(material, key.value)) else None]
    {
      var key := crypto.Derive(material);
      slots[index] := if key.Some? then Some(KeySet(material, key.value)) else None;
    }

    /**
      * The decryption attempt of decryptFrame and DataPacketCryptor::Decrypt. The slots afterwards are
      * the slots before, except that a hit moves the one slot to the key that opened the box.
      */
    method OpenBox(index: nat, window: int, box: Box) returns (plain: Option<seq<byte>>, ratcheted: bool)
      requires Valid() && index < slots.Length && slots[index].Some?
      modifies slots, this`hasValidKey
      ensures Valid()
      ensures var hit := Search(crypto, old(slots[index]).value.material, window, box);
              && plain == (if hit.Some? then Some(hit.value.plain) else None)
              && ratcheted == (hit.Some? && hit.value.k > 0)
              && slots[..] == (if hit.Some? then old(slots[..])[index := Some(hit.value.keys)] else old(slots[..]))
              && hasValidKey == (old(hasValidKey) || ratcheted)
    {
      var initial := slots[index].value;
      plain, ratcheted := crypto.Open(initial.key, box), false;
      if plain.Some? {
        assert slots[..] == old(slots[..])[index := Some(initial)];
        return;
      }
      if window > 0 {
        var current, count := initial.material, 0;
        while count < window
          invariant 0 <= count <= window && plain.None?
          invariant Search(crypto, initial.material, window, box) ==
                    if count < window then SearchFrom(crypto, crypto.Ratchet(current), count + 1, window, box) else None
        {
          count := count + 1;
          var material := crypto.Ratchet(current);
          var key := crypto.Derive(material);
          if material == [] || key.None? {
            break;
          }
          plain := crypto.Open(key.value, box);
          if plain.Some? {
            SetKeyFromMaterial(material, index);
            hasValidKey, ratcheted := true, true;
            return;
          }
          current := material;
        }
        SetKeyFromMaterial(initial.material, index);
        assert slots[..] == old(slots[..]);
      }
    }
  }
}
