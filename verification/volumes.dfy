/**
 Slicing an instance's data space into volumes, naming them when the instance is
 started and naming the devices that its boot configuration formats
 (ec2system/ec2machine.go). Sizes are in GiB.
 */
module Volumes {

  const MIN_SLICE := 335
  const MAX_VOLUMES := 25

  /** sliceConfig: how many volumes, and of what size. */
  function SliceConfig(dataspace: nat): (r: (nat, nat)) {
    var n := (dataspace + MIN_SLICE - 1) / MIN_SLICE;
    if n <= MAX_VOLUMES then (n, MIN_SLICE) else (MAX_VOLUMES, dataspace / MAX_VOLUMES)
  }

  /**
   As many volumes of 335 as the data space needs, if 25 do; they hold it with less than one to spare.
   Otherwise 25 of equal size, as large as the data space allows, which fall short of it by at most 24.
   */
  lemma SlicesCover(d: nat)
    ensures var (n, size) := SliceConfig(d);
      if d <= 8375 then size == 335 && (n - 1) * 335 < d <= n * 335 && n <= 25
      else n == 25 && size >= 335 && 25 * size <= d < 25 * (size + 1)
  {
  }

  /** The letters of the volumes. */
  const LETTERS := "bcdefghijklmnopqrstuvwxyz"

  /** The block devices that Start attaches for the data space. */
  method Attached(dataspace: nat) returns (devices: seq<string>)
    ensures |devices| == SliceConfig(dataspace).0 <= MAX_VOLUMES
    ensures forall i | 0 <= i < |devices| :: devices[i] == "/dev/xvd" + [LETTERS[i]]
    ensures forall i, j | 0 <= i < j < |devices| :: devices[i] != devices[j]
  {
    SlicesCover(dataspace);
    var (n, _) := SliceConfig(dataspace);
    devices := [];
    for i := 0 to n
      invariant |devices| == i
      invariant forall k | 0 <= k < i :: devices[k] == "/dev/xvd" + [LETTERS[k]]
    {
      devices := devices + ["/dev/xvd" + [('b' as int + i) as char]];
    }
    forall i, j | 0 <= i < j < |devices| ensures devices[i] != devices[j] {
      assert devices[i][8] == LETTERS[i] && devices[j][8] == LETTERS[j];
    }
  }

  /** The devices that the boot configuration of a non-NVMe instance formats, as one file system. */
  method Formatted(dataspace: nat) returns (devices: seq<string>)
    ensures |devices| == SliceConfig(dataspace).0 <= MAX_VOLUMES
    ensures forall i | 0 <= i < |devices| :: devices[i] == "xvd" + [LETTERS[i]]
  {
    SlicesCover(dataspace);
    var (n, _) := SliceConfig(dataspace);
    if n == 0 {
      return [];
    }
    if n == 1 {
      return ["xvdb"];
    }
    var names := new string[n](_ => "");
    for i := 0 to n
      invariant forall k | 0 <= k < i :: names[k] == "xvd" + [LETTERS[k]]
    {
      names[i] := "xvd" + [('b' as int + i) as char];
    }
    devices := names[..];
  }

  /** What is formatted is exactly what is attached, in the same order. */
  method FormattedIsAttached(dataspace: nat) returns (attached: seq<string>, formatted: seq<string>)
    ensures |attached| == |formatted| == SliceConfig(dataspace).0
    ensures forall i | 0 <= i < |attached| :: attached[i] == "/dev/" + formatted[i]
    ensures forall i, j | 0 <= i < j < |formatted| :: formatted[i] != formatted[j]
  {
    attached := Attached(dataspace);
    formatted := Formatted(dataspace);
    forall i | 0 <= i < |attached| ensures attached[i] == "/dev/" + formatted[i] {
      assert SliceConfig(dataspace).0 <= MAX_VOLUMES;
      assert "/dev/xvd" + [LETTERS[i]] == "/dev/" + ("xvd" + [LETTERS[i]]);
    }
  }
}
