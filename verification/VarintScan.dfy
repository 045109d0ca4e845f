/** What the varint loops know after k bytes, and what each step makes of it. */
module VarintScan {
  import opened Words
  import opened Varint

  // ---------- The 32-bit reader ----------

  /** The low word of a varint: its first five groups decide. */
  function Low32(code: seq<byte>): u32 {
    Sum7(if |code| <= 5 then code else code[..5]) % TWO_32
  }

  /** All bytes but the last announced a successor. */
  predicate Scanned(all: seq<byte>, k: nat, result: nat) {
    && 1 <= k <= |all| && k <= 10
    && AllContinue(all[..k - 1])
    && result == Low32(all[..k])
    && forall i :: 5 <= i < k ==> ValidExtension(result, 7 * i, all[i])
  }

  lemma ScanStart(all: seq<byte>)
    requires |all| > 0
    ensures Scanned(all, 1, all[0] % 128)
  {
    assert all[..1] == [all[0]];
    Sum7Single(all[0]);
  }

  lemma SingleByte(all: seq<byte>)
    requires |all| > 0 && all[0] < 128
    ensures ReadVarint32(all) == Some((all[0], 1))
  {
    ScanStart(all);
  }

  /** The stream ends inside the varint. */
  lemma ScanShort(all: seq<byte>, k: nat, result: nat)
    requires Scanned(all, k, result) && k == |all| && all[k - 1] >= 128
    ensures ReadVarint32(all).None?
  {
    assert forall i :: 0 <= i < k - 1 ==> all[i] == all[..k - 1][i];
  }

  lemma ScannedLength(all: seq<byte>, k: nat)
    requires 1 <= k <= |all| && AllContinue(all[..k - 1]) && all[k - 1] >= 128 && VarintLen(all).Some?
    ensures VarintLen(all).value > k
  {
    assert forall i :: 0 <= i < k - 1 ==> all[..k - 1][i] == all[i];
  }

  lemma ScanOverflow(all: seq<byte>, k: nat, result: nat)
    requires Scanned(all, k, result) && k < |all| && all[k - 1] >= 128 && k >= 5
    requires 7 * k >= 64 || !ValidExtension(result, 7 * k, all[k])
    ensures ReadVarint32(all).None?
  {
    if VarintLen(all).Some? {
      ScannedLength(all, k);
      var code := all[..VarintLen(all).value];
      assert code[..5] == all[..5] == all[..k][..5];
      assert code[k] == all[k];
    }
  }

  lemma ScanExtension(all: seq<byte>, k: nat, result: nat)
    requires Scanned(all, k, result) && k < |all| && all[k - 1] >= 128 && 5 <= k < 10
    requires ValidExtension(result, 7 * k, all[k])
    ensures Scanned(all, k + 1, result)
  {
    assert all[..k + 1][..5] == all[..5] == all[..k][..5];
  }

  lemma ScanDigit(all: seq<byte>, k: nat, result: nat)
    requires Scanned(all, k, result) && k < |all| && all[k - 1] >= 128 && k < 5
    ensures Scanned(all, k + 1, (result + Shl(all[k] % 128, 7 * k)) % TWO_32)
  {
    DigitSum(all, k);
    WrapSum(Sum7(all[..k]), Shl(all[k] % 128, 7 * k));
  }

  /** One more group of seven bits. */
  lemma DigitSum(all: seq<byte>, k: nat)
    requires k < |all|
    ensures Sum7(all[..k + 1]) == Sum7(all[..k]) + Shl(all[k] % 128, 7 * k)
  {
    assert all[..k + 1] == all[..k] + [all[k]];
    Sum7Concat(all[..k], [all[k]]);
    Sum7Single(all[k]);
  }

  lemma ScanLength(all: seq<byte>, k: nat)
    requires 1 <= k <= |all| && AllContinue(all[..k - 1]) && all[k - 1] < 128
    ensures VarintLen(all) == Some(k)
  {
    LenOfPrefix(all[..k - 1], all[k - 1], all[k..]);
    assert all == all[..k - 1] + [all[k - 1]] + all[k..];
  }

  lemma ScanEnd(all: seq<byte>, k: nat, result: nat)
    requires Scanned(all, k, result) && all[k - 1] < 128
    ensures ReadVarint32(all) == if k == 5 && all[4] >= 16 then None else Some((result, k))
  {
    ScanLength(all, k);
    var code := all[..k];
    if k > 5 {
      LowFive(code);
    }
  }

  // ---------- The 64-bit reader ----------

  predicate ScannedLong(all: seq<byte>, k: nat, result: nat) {
    && k <= |all| && k <= 10
    && (k > 0 ==> AllContinue(all[..k - 1]))
    && result == Sum7(all[..k]) % TWO_64
  }

  lemma LongShort(all: seq<byte>, result: nat)
    requires ScannedLong(all, |all|, result) && (all == [] || all[|all| - 1] >= 128)
    ensures ReadVarint64(all).None?
  {
    if VarintLen(all).Some? {
      ScannedLength(all, |all|);
    }
  }

  lemma LongOverflow(all: seq<byte>, result: nat)
    requires ScannedLong(all, 10, result) && all[9] >= 128
    ensures ReadVarint64(all).None?
  {
    if VarintLen(all).Some? {
      ScannedLength(all, 10);
    }
  }

  lemma LongDigit(all: seq<byte>, k: nat, result: nat)
    requires ScannedLong(all, k, result) && k < |all| && k < 10 && (k == 0 || all[k - 1] >= 128)
    ensures ScannedLong(all, k + 1, (result + Shl(all[k] % 128, 7 * k)) % TWO_64)
  {
    assert forall i :: 0 <= i < k - 1 ==> all[..k - 1][i] == all[i];
    DigitSum(all, k);
    WrapLongSum(Sum7(all[..k]), Shl(all[k] % 128, 7 * k));
  }

  lemma LongEnd(all: seq<byte>, k: nat, result: nat)
    requires ScannedLong(all, k, result) && k > 0 && all[k - 1] < 128
    ensures ReadVarint64(all) == Some((result, k))
  {
    ScanLength(all, k);
  }
}
