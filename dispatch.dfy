/**
  The per-executable dispatch policy: which resolved paths are watched, and
  which table entries are tried, in which order, on a page of each watched
  executable. `ApplyAll` is the effect on the page of trying them one after
  the other, each independently of whether the others matched.
 */
module Dispatch {
  import opened CTypes
  import opened Patterns
  import opened Patcher

  datatype Executable = BlueTool | Bluetoothd

  const WatchedDirectory: string := "/usr/sbin/"

  /** `sizeof("/usr/sbin/") - 1`. */
  const DirLength: nat := |WatchedDirectory|

  function BaseName(e: Executable): string
  {
    match e
    case BlueTool => "BlueTool"
    case Bluetoothd => "bluetoothd"
  }

  /** The path test of the validation wrapper: `strncmp` against the
      watched directory, then `strcmp` of the rest against each basename. */
  function Classify(path: seq<char>): Option<Executable>
  {
    if !StrNEqual(path, WatchedDirectory, DirLength, NulChar) then None
    // Never taken once the prefix test holds; it keeps `path[DirLength..]` well-formed.
    else if |path| < DirLength then None
    else if StrEqual(path[DirLength..], BaseName(BlueTool), NulChar) then Some(BlueTool)
    else if StrEqual(path[DirLength..], BaseName(Bluetoothd), NulChar) then Some(Bluetoothd)
    else None
  }

  /** A path selects an executable exactly when its C string is the watched
      directory followed by that executable's basename: no other prefix, no
      longer or shorter name, no case folding. */
  lemma {:induction false} ClassifyExact(path: seq<char>, e: Executable)
    ensures Classify(path) == Some(e) <==> CStr(path, NulChar) == WatchedDirectory + BaseName(e)
  {
    var c, d, name := CStr(path, NulChar), WatchedDirectory, BaseName(e);
    assert NulChar !in d;
    if StrNEqual(path, d, |d|, NulChar) {
      StrNEqualSplit(path, d, NulChar);
      ClassifyInWatchedDirectory(path, e);
      var rest := CStr(path[|d|..], NulChar);
      PrefixCancels(d, rest, name);
      assert c == d + rest;
      assert Classify(path) == Some(e) <==> rest == name;
    } else {
      StrNEqualPrefix(path, d, NulChar);
      assert (d + name)[..|d|] == d;
    }
  }

  /** Inside the watched directory, the choice rests on the rest of the
      path alone. */
  lemma {:induction false} ClassifyInWatchedDirectory(path: seq<char>, e: Executable)
    requires StrNEqual(path, WatchedDirectory, DirLength, NulChar)
    requires |path| >= DirLength
    ensures Classify(path) == Some(e) <==> CStr(path[DirLength..], NulChar) == BaseName(e)
  {
    BaseNamesArePlain();
  }

  /** Both basenames are their own C strings, and they differ. */
  lemma {:induction false} BaseNamesArePlain()
    ensures CStr(BaseName(BlueTool), NulChar) == BaseName(BlueTool)
    ensures CStr(BaseName(Bluetoothd), NulChar) == BaseName(Bluetoothd)
    ensures BaseName(BlueTool) != BaseName(Bluetoothd)
  {
    BaseNameIsPlain(BlueTool);
    BaseNameIsPlain(Bluetoothd);
  }

  /** A basename holds no terminator, so it is its own C string. */
  lemma {:induction false} BaseNameIsPlain(e: Executable)
    ensures CStr(BaseName(e), NulChar) == BaseName(e)
  {
    var name := BaseName(e);
    assert NulChar !in name;
    CStrOfPlain(name, NulChar);
  }

  /** Any path outside the watched directory, or with another basename,
      selects nothing. */
  lemma {:induction false} ClassifyNone(path: seq<char>)
    ensures Classify(path) == None <==>
              CStr(path, NulChar) != WatchedDirectory + BaseName(BlueTool) &&
              CStr(path, NulChar) != WatchedDirectory + BaseName(Bluetoothd)
  {
    ClassifyExact(path, BlueTool);
    ClassifyExact(path, Bluetoothd);
  }

  /** The board identifier substitution: the allowlisted identifier, with
      its terminator, becomes the first `BoardIdSize` bytes of this board's. */
  function BoardIdPatch(boardId: seq<byte>): (p: Patch)
    requires |boardId| >= BoardIdSize
    ensures |p.find| == |p.replace| == 13 && Fits(p)
  {
    Patch(BoardIdsWithUSBBluetooth[0][..BoardIdSize], boardId[..BoardIdSize])
  }

  /** The patches tried on a page of `e`, in order, under the two flags. */
  function Plan(e: Executable, patchBoardId: bool, patchAddress: bool, boardId: seq<byte>): (ps: seq<Patch>)
    requires patchBoardId ==> |boardId| >= BoardIdSize
    ensures forall i :: 0 <= i < |ps| ==> Fits(ps[i])
  {
    var board := if patchBoardId then [BoardIdPatch(boardId)] else [];
    match e
    case BlueTool => [SkipUpdatePatch] + board
    case Bluetoothd =>
      [VendorPatch, BadChipsetPatch] + board + (if patchAddress then [SkipAddressPatch] else [])
  }

  /** BlueTool gets the skip-update patch, then the board identifier
      substitution when enabled, and never any bluetoothd opcode patch. */
  lemma {:induction false} PlanForBlueTool(patchBoardId: bool, patchAddress: bool, boardId: seq<byte>)
    requires patchBoardId ==> |boardId| >= BoardIdSize
    ensures var ps := Plan(BlueTool, patchBoardId, patchAddress, boardId);
      && |ps| == (if patchBoardId then 2 else 1)
      && ps[0] == SkipUpdatePatch
      && (patchBoardId ==> ps[1] == BoardIdPatch(boardId))
      && VendorPatch !in ps && BadChipsetPatch !in ps && SkipAddressPatch !in ps
  {
    TableFits();
  }

  /** bluetoothd gets the vendor patch, the chipset patch, then the board
      identifier substitution and the address patch when each is enabled:
      two patches with both flags off, four with both on. */
  lemma {:induction false} PlanForBluetoothd(patchBoardId: bool, patchAddress: bool, boardId: seq<byte>)
    requires patchBoardId ==> |boardId| >= BoardIdSize
    ensures var ps := Plan(Bluetoothd, patchBoardId, patchAddress, boardId);
      && |ps| == 2 + (if patchBoardId then 1 else 0) + (if patchAddress then 1 else 0)
      && ps[0] == VendorPatch && ps[1] == BadChipsetPatch
      && (patchBoardId ==> ps[2] == BoardIdPatch(boardId))
      && (patchAddress ==> ps[|ps| - 1] == SkipAddressPatch)
      && (SkipAddressPatch in ps <==> patchAddress)
      && SkipUpdatePatch !in ps
  {
    TableFits();
    SkipUpdateSizes();
  }

  /** The page after trying every patch of `ps` in order. */
  function ApplyAll(h: seq<byte>, ps: seq<Patch>): (r: seq<byte>)
    requires forall i :: 0 <= i < |ps| ==> Fits(ps[i])
    decreases |ps|
    ensures |r| == |h|
  {
    if ps == [] then h else ApplyAll(Replaced(h, ps[0]), ps[1..])
  }

  /** Trying one more patch after a sequence is one more search-and-replace
      on the result. */
  lemma {:induction false} ApplyAllSnoc(h: seq<byte>, ps: seq<Patch>, p: Patch)
    requires forall i :: 0 <= i < |ps| ==> Fits(ps[i])
    requires Fits(p)
    ensures ApplyAll(h, ps + [p]) == Replaced(ApplyAll(h, ps), p)
    decreases |ps|
  {
    if ps == [] {
      assert ApplyAll(Replaced(h, p), []) == Replaced(h, p);
    } else {
      assert (ps + [p])[1..] == ps[1..] + [p];
      ApplyAllSnoc(Replaced(h, ps[0]), ps[1..], p);
    }
  }

  /** A page in which no planned pattern occurs is left as it was. */
  lemma {:induction false} ApplyAllWithoutMatches(h: seq<byte>, ps: seq<Patch>)
    requires forall i :: 0 <= i < |ps| ==> Fits(ps[i])
    requires forall i, k :: 0 <= i < |ps| && 0 <= k ==> !MatchAt(h, ps[i].find, k)
    ensures ApplyAll(h, ps) == h
    decreases |ps|
  {
    if ps != [] {
      ReplacedWithoutMatch(h, ps[0]);
      assert forall i, k :: 0 <= i < |ps[1..]| && 0 <= k ==> !MatchAt(h, ps[1..][i].find, k) by {
        forall i, k | 0 <= i < |ps[1..]| && 0 <= k ensures !MatchAt(h, ps[1..][i].find, k) {
          assert ps[1..][i] == ps[i + 1];
        }
      }
      ApplyAllWithoutMatches(h, ps[1..]);
    }
  }

  /** A search-and-replace leaves a region alone when no occurrence of the
      pattern overlaps it. */
  lemma {:induction false} ReplacedKeepsDisjoint(h: seq<byte>, p: Patch, lo: nat, hi: nat)
    requires Fits(p) && lo <= hi <= |h|
    requires forall j: nat :: MatchAt(h, p.find, j) ==> j + |p.find| <= lo || hi <= j
    ensures Replaced(h, p)[lo..hi] == h[lo..hi]
  {
  }

  /** On a BlueTool page with both flags off, the first occurrence of the
      skip-update path reads as the replacement path and its terminator;
      the 13 bytes after it keep `"rmwareUpdate"` and its terminator; every
      other byte is the page's own. */
  lemma {:induction false} BlueToolEndToEnd(h: seq<byte>, k: nat, boardId: seq<byte>)
    requires MatchAt(h, SkipUpdateFilePathOriginal, k)
    requires forall j :: 0 <= j < k ==> !MatchAt(h, SkipUpdateFilePathOriginal, j)
    ensures var r := ApplyAll(h, Plan(BlueTool, false, false, boardId));
      && r[k..k + 38] == SkipUpdateFilePathPatched
      && r[k + 38..k + 51] == CLiteral("rmwareUpdate")
      && forall t :: 0 <= t < |h| && !(k <= t < k + 38) ==> r[t] == h[t]
  {
    SkipUpdateSizes();
    SkipUpdateTail();
    var ps := Plan(BlueTool, false, false, boardId);
    assert ps == [SkipUpdatePatch];
    assert ApplyAll(h, ps) == Replaced(h, SkipUpdatePatch) by {
      assert ApplyAll(Replaced(h, SkipUpdatePatch), []) == Replaced(h, SkipUpdatePatch);
    }
    ReplacedAtFirstMatch(h, SkipUpdatePatch, k);
  }

  /** A window no planned needle can overlap survives every patch of a
      sequence. */
  lemma {:induction false} ApplyAllKeepsWindow(h: seq<byte>, ps: seq<Patch>, k: nat, w: seq<byte>)
    requires forall i :: 0 <= i < |ps| ==> Fits(ps[i])
    requires MatchAt(h, w, k)
    requires forall i :: 0 <= i < |ps| ==> Apart(w, ps[i].find)
    ensures MatchAt(ApplyAll(h, ps), w, k)
    decreases |ps|
  {
    if ps != [] {
      var p := ps[0];
      forall j: nat | MatchAt(h, p.find, j) ensures j + |p.find| <= k || k + |w| <= j {
        MatchesApart(h, k, w, j, p.find);
      }
      ReplacedKeepsDisjoint(h, p, k, k + |w|);
      assert forall i :: 0 <= i < |ps[1..]| ==> ps[1..][i] == ps[i + 1];
      ApplyAllKeepsWindow(Replaced(h, p), ps[1..], k, w);
    }
  }

  /** The allowlisted identifier the board-id patch looks for. */
  lemma {:induction false} BoardIdNeedle(boardId: seq<byte>)
    requires |boardId| >= BoardIdSize
    ensures BoardIdPatch(boardId).find == CLiteral("Mac-F22586C8")
  {
    TableFits();
  }

  /** The board-id needle cannot overlap the boot loader path: it starts
      with `M`, which the path lacks, and holds no `/`. */
  lemma {:induction false} BootPathApartFromBoardId()
    ensures Apart(SkipUpdateFilePathPatched, CLiteral("Mac-F22586C8"))
  {
    var w, n := SkipUpdateFilePathPatched, CLiteral("Mac-F22586C8");
    assert n[0] == 0x4D && w[0] == 0x2F;
    assert forall i :: 0 <= i < |w| ==> w[i] != 0x4D;
    assert forall i :: 0 <= i < |n| ==> n[i] != 0x2F;
  }

  /** None of the later bluetoothd needles can overlap a patched vendor
      check: each starts differently or with a different second byte, and
      `0x81` occurs only at the start of the chipset check. */
  lemma {:induction false} PatchedVendorApart()
    ensures Apart(VendorCheckPatched, BadChipsetCheckOriginal)
    ensures Apart(VendorCheckPatched, SkipAddressCheckOriginal)
    ensures Apart(VendorCheckPatched, CLiteral("Mac-F22586C8"))
  {
    var n := CLiteral("Mac-F22586C8");
    assert n[0] == 0x4D;
    assert forall i :: 0 <= i < |n| ==> n[i] != 0x81;
  }

  /** Whatever the flags, the first occurrence of the skip-update path on
      a BlueTool page ends holding the boot loader path and its terminator:
      the board-id substitution that may follow cannot overlap it. */
  lemma {:induction false} BlueToolPathSurvives(h: seq<byte>, k: nat, patchBoardId: bool, patchAddress: bool,
                                                boardId: seq<byte>)
    requires patchBoardId ==> |boardId| >= BoardIdSize
    requires MatchAt(h, SkipUpdateFilePathOriginal, k)
    requires forall j :: 0 <= j < k ==> !MatchAt(h, SkipUpdateFilePathOriginal, j)
    ensures MatchAt(ApplyAll(h, Plan(BlueTool, patchBoardId, patchAddress, boardId)), SkipUpdateFilePathPatched, k)
  {
    var ps := Plan(BlueTool, patchBoardId, patchAddress, boardId);
    var rest := if patchBoardId then [BoardIdPatch(boardId)] else [];
    assert ps == [SkipUpdatePatch] + rest && ps[1..] == rest;
    var h1 := Replaced(h, SkipUpdatePatch);
    assert MatchAt(h1, SkipUpdateFilePathPatched, k) by {
      SkipUpdateSizes();
      ReplacedAtFirstMatch(h, SkipUpdatePatch, k);
    }
    assert forall i :: 0 <= i < |rest| ==> Apart(SkipUpdateFilePathPatched, rest[i].find) by {
      if patchBoardId {
        BoardIdNeedle(boardId);
        BootPathApartFromBoardId();
      }
    }
    ApplyAllKeepsWindow(h1, rest, k, SkipUpdateFilePathPatched);
  }

  /** Whatever the flags and whatever the untouched tail holds, the path
      BlueTool reads at the patched offset is the boot loader's. */
  lemma {:induction false} BlueToolReadsBootLoaderPath(h: seq<byte>, k: nat, patchBoardId: bool, patchAddress: bool,
                                                       boardId: seq<byte>)
    requires patchBoardId ==> |boardId| >= BoardIdSize
    requires MatchAt(h, SkipUpdateFilePathOriginal, k)
    requires forall j :: 0 <= j < k ==> !MatchAt(h, SkipUpdateFilePathOriginal, j)
    ensures var r := ApplyAll(h, Plan(BlueTool, patchBoardId, patchAddress, boardId));
      CStr(r[k..], NulByte) == Ascii("/System/Library/CoreServices/boot.efi")
  {
    var r := ApplyAll(h, Plan(BlueTool, patchBoardId, patchAddress, boardId));
    assert r[k..k + |SkipUpdateFilePathPatched|] == SkipUpdateFilePathPatched by {
      BlueToolPathSurvives(h, k, patchBoardId, patchAddress, boardId);
    }
    SkipUpdatePatchedReadsAsPath();
    CStrOfWrittenPrefix(r, k, SkipUpdateFilePathPatched, NulByte);
  }

  /** Every patch bluetoothd tries after the vendor patch is apart from the
      patched vendor check. */
  lemma {:induction false} BluetoothdLaterPatchesApart(patchBoardId: bool, patchAddress: bool, boardId: seq<byte>)
    requires patchBoardId ==> |boardId| >= BoardIdSize
    ensures var ps := Plan(Bluetoothd, patchBoardId, patchAddress, boardId);
      forall i :: 0 < i < |ps| ==> Apart(VendorCheckPatched, ps[i].find)
  {
    var board := if patchBoardId then [BoardIdPatch(boardId)] else [];
    var address := if patchAddress then [SkipAddressPatch] else [];
    var ps := Plan(Bluetoothd, patchBoardId, patchAddress, boardId);
    assert ps == [VendorPatch, BadChipsetPatch] + board + address;
    PatchedVendorApart();
    if patchBoardId {
      BoardIdNeedle(boardId);
    }
  }

  /** Whatever the flags, the first occurrence of the vendor check on a
      bluetoothd page ends as `81 FA 5C 0A 00 00 EB`: none of the patches
      tried after it can overlap it. */
  lemma {:induction false} BluetoothdVendorEndToEnd(h: seq<byte>, k: nat, patchBoardId: bool, patchAddress: bool,
                                                    boardId: seq<byte>)
    requires patchBoardId ==> |boardId| >= BoardIdSize
    requires MatchAt(h, VendorCheckOriginal, k)
    requires forall j :: 0 <= j < k ==> !MatchAt(h, VendorCheckOriginal, j)
    ensures ApplyAll(h, Plan(Bluetoothd, patchBoardId, patchAddress, boardId))[k..k + 7] == VendorCheckPatched
  {
    var ps := Plan(Bluetoothd, patchBoardId, patchAddress, boardId);
    PlanForBluetoothd(patchBoardId, patchAddress, boardId);
    var h1 := Replaced(h, VendorPatch);
    assert MatchAt(h1, VendorCheckPatched, k) by {
      OpcodePatchesFlipOneByte();
      ReplacedAtFirstMatch(h, VendorPatch, k);
    }
    BluetoothdLaterPatchesApart(patchBoardId, patchAddress, boardId);
    assert forall i :: 0 <= i < |ps[1..]| ==> ps[1..][i] == ps[i + 1];
    ApplyAllKeepsWindow(h1, ps[1..], k, VendorCheckPatched);
    assert ApplyAll(h, ps) == ApplyAll(h1, ps[1..]);
    OpcodePatchesFlipOneByte();
  }
}
