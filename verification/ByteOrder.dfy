/** Little-endian numbers in byte sequences. */
module ByteOrder {

  type Bytes = seq<bv8>

  function LittleEndian(n: nat, count: nat): (bytes: Bytes)
    ensures |bytes| == count
    decreases count
  {
    if count == 0 then [] else [(n % 256) as bv8] + LittleEndian(n / 256, count - 1)
  }

  function Number(bytes: Bytes): nat {
    if bytes == [] then 0 else bytes[0] as nat + 256 * Number(bytes[1..])
  }

  function Range(count: nat): nat {
    if count == 0 then 1 else 256 * Range(count - 1)
  }

  lemma NextByte(b: bv8)
    requires b as nat < 255
    ensures (b + 1) as nat == b as nat + 1
  {
  }

  lemma {:induction false} ByteBack(n: nat)
    requires n < 256
    ensures (n as bv8) as nat == n
  {
    if n > 0 {
      ByteBack(n - 1);
      var b := (n - 1) as bv8;
      NextByte(b);
      assert ((b + 1) as nat) as bv8 == b + 1;
    }
  }

  lemma {:induction false} NumberReadsBack(n: nat, count: nat)
    requires n < Range(count)
    ensures Number(LittleEndian(n, count)) == n
    decreases count
  {
    if count > 0 {
      var bytes := LittleEndian(n, count);
      assert bytes[1..] == LittleEndian(n / 256, count - 1);
      ByteBack(n % 256);
      NumberReadsBack(n / 256, count - 1);
    }
  }

  lemma ByteOf(b: bv8, n: nat)
    ensures ((b as nat + 256 * n) % 256) as bv8 == b && (b as nat + 256 * n) / 256 == n
  {
    var byte := b as nat;
    assert byte < 256;
    assert (byte + 256 * n) % 256 == byte;
  }

  lemma FirstByte(b: bv8, n: nat, count: nat)
    ensures LittleEndian(b as nat + 256 * n, count + 1) == [b] + LittleEndian(n, count)
    ensures n < Range(count) ==> b as nat + 256 * n < Range(count + 1)
  {
    ByteOf(b, n);
    var byte := b as nat;
    assert byte < 256;
  }

  lemma {:induction false} BytesReadBack(bytes: Bytes)
    ensures LittleEndian(Number(bytes), |bytes|) == bytes && Number(bytes) < Range(|bytes|)
  {
    hide LittleEndian;
    if bytes == [] {
      NoBytes();
    } else {
      BytesReadBack(bytes[1..]);
      FirstByte(bytes[0], Number(bytes[1..]), |bytes| - 1);
      assert bytes == [bytes[0]] + bytes[1..];
    }
  }

  lemma NoBytes()
    ensures LittleEndian(0, 0) == []
  {
  }
}
