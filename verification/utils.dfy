/**
 `getRawDevice` of `lib/utils.js`: the macOS block device `/dev/diskN` is
 swapped for its raw counterpart `/dev/rdiskN`; every other device name is
 returned unchanged.
 */
module Utils {
  import opened Base
  import opened Decimal
  import opened Patterns

  const DiskPrefix: string := "/dev/disk"
  const RawDiskPrefix: string := "/dev/rdisk"

  /** `/dev/rdisk` followed by a disk number. */
  predicate RawDiskName(r: string) {
    |r| > |RawDiskPrefix| && r[..|RawDiskPrefix|] == RawDiskPrefix && AllDigits(r[|RawDiskPrefix|..])
  }

  /**
   The raw device for `device`: when `/dev/disk` followed by digits occurs
   in it, `/dev/rdisk` and the digits of the leftmost occurrence; otherwise
   `device` itself.
   */
  function GetRawDevice(device: string): (r: string)
    ensures (forall j: nat :: !MatchesAt(device, j, DiskPrefix, false)) ==> r == device
    ensures (exists j: nat :: MatchesAt(device, j, DiskPrefix, false)) ==>
              RawDiskName(r) && r[|RawDiskPrefix|..] == CaptureDigits(device, DiskPrefix, false).value
  {
    match CaptureDigits(device, DiskPrefix, false)
    case None => device
    case Some(number) => RawDiskPrefix + number
  }

  /** A raw disk name holds no `/dev/disk` followed by digits. */
  lemma RawNameHasNoDisk(r: string)
    requires RawDiskName(r)
    ensures forall j: nat :: !MatchesAt(r, j, DiskPrefix, false)
  {
    forall j: nat
      ensures !MatchesAt(r, j, DiskPrefix, false)
    {
      if j + |DiskPrefix| <= |r| {
        var head := r[..|RawDiskPrefix|];
        assert head[5] == r[5] == 'r';
        if j == 0 {
          assert !CharMatches(r[j + 5], DiskPrefix[5], false);
        } else if j == 4 {
          assert !CharMatches(r[j + 1], DiskPrefix[1], false);
        } else if j < |RawDiskPrefix| {
          assert head[j] == r[j];
          assert !CharMatches(r[j], DiskPrefix[0], false);
        } else {
          assert r[|RawDiskPrefix|..][j - |RawDiskPrefix|] == r[j];
          assert !CharMatches(r[j], DiskPrefix[0], false);
        }
      }
    }
  }

  /** The raw device of a raw device is itself; the name is never changed twice. */
  lemma GetRawDeviceIdempotent(device: string)
    ensures GetRawDevice(GetRawDevice(device)) == GetRawDevice(device)
  {
    var r := GetRawDevice(device);
    if exists j: nat :: MatchesAt(device, j, DiskPrefix, false) {
      RawNameHasNoDisk(r);
    }
  }

  /** A changed name is a raw disk name, and a raw disk name is left alone: the two cases never overlap. */
  lemma GetRawDeviceChangesIff(device: string)
    ensures GetRawDevice(device) != device <==> exists j: nat :: MatchesAt(device, j, DiskPrefix, false)
  {
    if exists j: nat :: MatchesAt(device, j, DiskPrefix, false) {
      RawNameHasNoDisk(GetRawDevice(device));
    }
  }

  /** The three names the repository's tests try. */
  lemma GetRawDeviceExamples()
    ensures GetRawDevice("/dev/disk2") == "/dev/rdisk2"
    ensures GetRawDevice("/dev/sda1") == "/dev/sda1"
    ensures GetRawDevice("\\\\.\\PHYSICALDRIVE1") == "\\\\.\\PHYSICALDRIVE1"
  {
    var mac := "/dev/disk2";
    assert MatchesAt(mac, 0, DiskPrefix, false);
    assert FirstMatchFrom(mac, DiskPrefix, false, 0) == Some(0);
    assert DigitRun(mac, 10) == 0;
    assert DigitRun(mac, 9) == 1;
    assert mac[9..10] == "2";
    var linux := "/dev/sda1";
    forall j: nat
      ensures !MatchesAt(linux, j, DiskPrefix, false)
    {
      if j + |DiskPrefix| <= |linux| {
        assert !CharMatches(linux[j + 5], DiskPrefix[5], false);
      }
    }
    var windows := "\\\\.\\PHYSICALDRIVE1";
    forall j: nat
      ensures !MatchesAt(windows, j, DiskPrefix, false)
    {
      if j + |DiskPrefix| <= |windows| {
        assert !CharMatches(windows[j], DiskPrefix[0], false);
      }
    }
  }
}
