/**
  The plugin's process-wide state and its entry points: the start routine
  and the one-time feature gate it schedules for when the patcher loads,
  the wrapper that replaces the kernel's code-page validator, and the
  kernel's view of validation (wrapped once routing succeeded, original
  otherwise).
 */
module Fixup {
  import opened CTypes
  import opened Patterns
  import opened Patcher
  import opened Dispatch

  /** `KernelVersion::Monterey`: Darwin 21. */
  const Monterey: int := 21

  /** `PAGE_SIZE` on the kernel's architecture. */
  const PageSize: nat := 4096

  /** `getKernelVersion()` and `getKernelMinorVersion()`. */
  datatype KernelVersion = KernelVersion(major: int, minor: int)

  /** The start routine routes page validation only from Monterey on. */
  predicate InterceptionSupported(k: KernelVersion)
  {
    k.major >= Monterey
  }

  /** Darwin 21.5 (macOS 12.4 beta 3) or any later major version. */
  predicate AddressPatchSupported(k: KernelVersion)
  {
    (k.major == Monterey && k.minor >= 5) || k.major > Monterey
  }

  /** The gate for the board identifier substitution: the identifier is as
      long as the allowlisted ones and is none of them. */
  predicate BoardIdPatchWanted(boardId: seq<byte>): (r: bool)
    ensures r ==> StrLen(boardId, NulByte) == 12
  {
    && StrLen(boardId, NulByte) + 1 == BoardIdSize
    && forall i :: 0 <= i < |BoardIdsWithUSBBluetooth| ==>
         !StrEqual(BoardIdsWithUSBBluetooth[i], boardId, NulByte)
  }

  /** When the substitution is wanted, the bytes written in place of the
      allowlisted identifier are this board's identifier and its
      terminator: exactly `BoardIdSize` bytes. */
  lemma {:induction false} BoardIdReplacementIsTerminated(boardId: seq<byte>)
    requires NulByte in boardId
    requires BoardIdPatchWanted(boardId)
    ensures |boardId| >= BoardIdSize
    ensures BoardIdPatch(boardId).replace == CStr(boardId, NulByte) + [NulByte]
  {
    var c := CStr(boardId, NulByte);
    assert |c| == 12 && BoardIdSize == 13;
    assert |c| < |boardId| by {
      var i :| 0 <= i < |boardId| && boardId[i] == NulByte;
      assert NulByte !in c;
    }
    assert boardId[..13] == boardId[..12] + [boardId[12]];
  }

  /** An allowlisted board is never patched, whatever follows its
      terminator in the buffer; any other 12-character identifier is. */
  lemma {:induction false} BoardIdGateExact(boardId: seq<byte>)
    ensures BoardIdPatchWanted(boardId) <==>
              |CStr(boardId, NulByte)| == 12 && CStr(boardId, NulByte) != Ascii("Mac-F22586C8")
  {
    AllowlistEntryReads();
    var id, c := Ascii("Mac-F22586C8"), CStr(boardId, NulByte);
    assert BoardIdPatchWanted(boardId) <==> |c| + 1 == BoardIdSize && !StrEqual(BoardIdsWithUSBBluetooth[0], boardId, NulByte);
    assert StrEqual(BoardIdsWithUSBBluetooth[0], boardId, NulByte) <==> id == c;
  }

  type Vnode = nat
  type Pager = nat

  /** What the validator reports through `validated_p`, `tainted_p` and
      `nx_p`. */
  datatype Verdict = Verdict(validated: int, tainted: int, nx: int)

  /** One call of the validator: its arguments, the page content it sees,
      and the values its output parameters held on entry. */
  datatype ValidateCall = ValidateCall(vp: Vnode, pager: Pager, pageOffset: nat, page: seq<byte>, incoming: Verdict)

  /** The three output parameters of the validator. */
  class ValidationOutputs {
    var validated: int
    var tainted: int
    var nx: int

    function Current(): Verdict
      reads this
    {
      Verdict(validated, tainted, nx)
    }

    constructor (v: Verdict)
      ensures Current() == v
    {
      validated, tainted, nx := v.validated, v.tainted, v.nx;
    }
  }

  /** The plugin's statics, the device information it reads, and the
      original validator the routing hands back. */
  class Plugin {
    /** `BaseDeviceInfo::get().boardIdentifier`, fixed for the boot. */
    const boardIdentifier: seq<byte>
    /** The routine the wrapper replaces; it reads the page and decides the
        outputs. */
    const originalValidator: ValidateCall -> Verdict
    var shouldPatchBoardId: bool
    var shouldPatchAddress: bool
    /** Whether routing the validator to the wrapper succeeded. */
    var routed: bool

    ghost predicate Valid()
      reads this
    {
      && NulByte in boardIdentifier
      && (shouldPatchBoardId ==> BoardIdPatchWanted(boardIdentifier))
    }

    /** Load time: both flags start false and nothing is routed. */
    constructor (boardIdentifier: seq<byte>, originalValidator: ValidateCall -> Verdict)
      requires NulByte in boardIdentifier
      ensures Valid()
      ensures this.boardIdentifier == boardIdentifier && this.originalValidator == originalValidator
      ensures !shouldPatchBoardId && !shouldPatchAddress && !routed
    {
      this.boardIdentifier := boardIdentifier;
      this.originalValidator := originalValidator;
      shouldPatchBoardId, shouldPatchAddress, routed := false, false, false;
    }

    /** The callback run when the patcher loads: decide both flags, then
        route the validator to the wrapper. */
    method OnPatcherLoad(kernel: KernelVersion, allowAnyAddr: bool, routeOk: bool)
      requires Valid()
      modifies this
      ensures Valid()
      ensures shouldPatchBoardId == BoardIdPatchWanted(boardIdentifier)
      ensures shouldPatchAddress == if AddressPatchSupported(kernel) then allowAnyAddr else old(shouldPatchAddress)
      ensures routed == routeOk
    {
      var boardId := boardIdentifier;
      shouldPatchBoardId := StrLen(boardId, NulByte) + 1 == BoardIdSize;
      if shouldPatchBoardId {
        for i := 0 to |BoardIdsWithUSBBluetooth|
          invariant shouldPatchBoardId
          invariant forall j :: 0 <= j < i ==> !StrEqual(BoardIdsWithUSBBluetooth[j], boardId, NulByte)
        {
          if StrEqual(BoardIdsWithUSBBluetooth[i], boardId, NulByte) {
            shouldPatchBoardId := false;
            break;
          }
        }
      }
      if AddressPatchSupported(kernel) {
        shouldPatchAddress := allowAnyAddr;
      }
      routed := routeOk;
    }

    /** The start routine: below Monterey nothing is scheduled and the
        plugin stays inert. */
    method PluginStart(kernel: KernelVersion, allowAnyAddr: bool, routeOk: bool)
      requires Valid()
      modifies this
      ensures Valid()
      ensures InterceptionSupported(kernel) ==>
                && shouldPatchBoardId == BoardIdPatchWanted(boardIdentifier)
                && shouldPatchAddress == (if AddressPatchSupported(kernel) then allowAnyAddr else old(shouldPatchAddress))
                && routed == routeOk
      ensures !InterceptionSupported(kernel) ==>
                && shouldPatchBoardId == old(shouldPatchBoardId)
                && shouldPatchAddress == old(shouldPatchAddress)
                && routed == old(routed)
    {
      if InterceptionSupported(kernel) {
        OnPatcherLoad(kernel, allowAnyAddr, routeOk);
      }
    }

    /** `patched_cs_validate_page`: run the original validator on the
        incoming arguments, then, for a page of a watched executable only,
        try that executable's patches in order. `resolvedPath` is what
        `vn_getpath` yields: nothing when it fails. */
    method PatchedValidatePage(vp: Vnode, pager: Pager, pageOffset: nat, data: array<byte>,
                               out: ValidationOutputs, resolvedPath: Option<seq<char>>)
      requires Valid() && data.Length == PageSize
      modifies data, out
      ensures out.Current() == originalValidator(ValidateCall(vp, pager, pageOffset, old(data[..]), old(out.Current())))
      ensures match (if resolvedPath.Some? then Classify(resolvedPath.value) else None)
        case None => data[..] == old(data[..])
        case Some(e) => data[..] == ApplyAll(old(data[..]), Plan(e, shouldPatchBoardId, shouldPatchAddress, boardIdentifier))
    {
      var v := originalValidator(ValidateCall(vp, pager, pageOffset, data[..], out.Current()));
      out.validated, out.tainted, out.nx := v.validated, v.tainted, v.nx;
      if resolvedPath.None? {
        return;
      }
      var exe := Classify(resolvedPath.value);
      if exe.None? {
        return;
      }
      if shouldPatchBoardId {
        BoardIdReplacementIsTerminated(boardIdentifier);
      }
      match exe.value {
        case BlueTool => PatchBlueToolPage(data);
        case Bluetoothd => PatchBluetoothdPage(data);
      }
    }

    /** The BlueTool branch: the skip-update path, then the board
        identifier when enabled. */
    method PatchBlueToolPage(data: array<byte>)
      requires data.Length == PageSize
      requires shouldPatchBoardId ==> |boardIdentifier| >= BoardIdSize
      modifies data
      ensures data[..] == ApplyAll(old(data[..]), Plan(BlueTool, shouldPatchBoardId, shouldPatchAddress, boardIdentifier))
    {
      TableFits();
      ghost var page := data[..];
      assert data[..] == ApplyAll(page, []);
      TryPatch(data, page, [], SkipUpdatePatch);
      ghost var tried := [SkipUpdatePatch];
      if shouldPatchBoardId {
        TryBoardIdPatch(data, page, tried);
        tried := tried + [BoardIdPatch(boardIdentifier)];
      }
      assert tried == Plan(BlueTool, shouldPatchBoardId, shouldPatchAddress, boardIdentifier);
    }

    /** The bluetoothd branch: the vendor check, the chipset range check,
        then the board identifier and the address check when each is
        enabled. */
    method PatchBluetoothdPage(data: array<byte>)
      requires data.Length == PageSize
      requires shouldPatchBoardId ==> |boardIdentifier| >= BoardIdSize
      modifies data
      ensures data[..] == ApplyAll(old(data[..]), Plan(Bluetoothd, shouldPatchBoardId, shouldPatchAddress, boardIdentifier))
    {
      TableFits();
      ghost var page := data[..];
      assert data[..] == ApplyAll(page, []);
      TryPatch(data, page, [], VendorPatch);
      TryPatch(data, page, [VendorPatch], BadChipsetPatch);
      ghost var tried := [VendorPatch, BadChipsetPatch];
      if shouldPatchBoardId {
        TryBoardIdPatch(data, page, tried);
        tried := tried + [BoardIdPatch(boardIdentifier)];
      }
      if shouldPatchAddress {
        TryPatch(data, page, tried, SkipAddressPatch);
        tried := tried + [SkipAddressPatch];
      }
      assert tried == Plan(Bluetoothd, shouldPatchBoardId, shouldPatchAddress, boardIdentifier);
    }

    /** One array-table `searchAndPatch` call over the whole page, seen as
        one more step of `ApplyAll`. */
    method TryPatch(data: array<byte>, ghost page: seq<byte>, ghost tried: seq<Patch>, p: Patch)
      requires data.Length == PageSize && Fits(p)
      requires forall i :: 0 <= i < |tried| ==> Fits(tried[i])
      requires data[..] == ApplyAll(page, tried)
      modifies data
      ensures data[..] == ApplyAll(page, tried + [p])
    {
      assert data[..PageSize] == data[..];
      SearchAndPatchArrays(data, PageSize, p.find, p.replace);
      assert data[..PageSize] == data[..];
      ApplyAllSnoc(page, tried, p);
    }

    /** The explicit-size `searchAndPatch` call for the board identifier:
        `BoardIdSize` bytes of the allowlisted identifier, replaced by as
        many bytes of this board's. */
    method TryBoardIdPatch(data: array<byte>, ghost page: seq<byte>, ghost tried: seq<Patch>)
      requires data.Length == PageSize && |boardIdentifier| >= BoardIdSize
      requires forall i :: 0 <= i < |tried| ==> Fits(tried[i])
      requires data[..] == ApplyAll(page, tried)
      modifies data
      ensures data[..] == ApplyAll(page, tried + [BoardIdPatch(boardIdentifier)])
    {
      TableFits();
      assert data[..PageSize] == data[..];
      SearchAndPatch(data, PageSize, BoardIdsWithUSBBluetooth[0], BoardIdSize, boardIdentifier, BoardIdSize);
      assert data[..PageSize] == data[..];
      ApplyAllSnoc(page, tried, BoardIdPatch(boardIdentifier));
    }

    /** The kernel's page validation once the plugin has started: the
        wrapper when routing succeeded, the untouched original otherwise. */
    method ValidatePage(vp: Vnode, pager: Pager, pageOffset: nat, data: array<byte>,
                        out: ValidationOutputs, resolvedPath: Option<seq<char>>)
      requires Valid() && data.Length == PageSize
      modifies data, out
      ensures out.Current() == originalValidator(ValidateCall(vp, pager, pageOffset, old(data[..]), old(out.Current())))
      ensures !routed ==> data[..] == old(data[..])
      ensures routed ==> match (if resolvedPath.Some? then Classify(resolvedPath.value) else None)
        case None => data[..] == old(data[..])
        case Some(e) => data[..] == ApplyAll(old(data[..]), Plan(e, shouldPatchBoardId, shouldPatchAddress, boardIdentifier))
    {
      if routed {
        PatchedValidatePage(vp, pager, pageOffset, data, out, resolvedPath);
      } else {
        var v := originalValidator(ValidateCall(vp, pager, pageOffset, data[..], out.Current()));
        out.validated, out.tainted, out.nx := v.validated, v.tainted, v.nx;
      }
    }
  }

  /** From load to a started plugin: the flags and the routing as the gate
      leaves them, starting from both flags false. */
  method Boot(boardIdentifier: seq<byte>, originalValidator: ValidateCall -> Verdict,
              kernel: KernelVersion, allowAnyAddr: bool, routeOk: bool) returns (p: Plugin)
    requires NulByte in boardIdentifier
    ensures fresh(p) && p.Valid()
    ensures p.boardIdentifier == boardIdentifier && p.originalValidator == originalValidator
    ensures p.shouldPatchBoardId <==> InterceptionSupported(kernel) && BoardIdPatchWanted(boardIdentifier)
    ensures p.shouldPatchAddress <==> InterceptionSupported(kernel) && AddressPatchSupported(kernel) && allowAnyAddr
    ensures p.routed <==> InterceptionSupported(kernel) && routeOk
  {
    p := new Plugin(boardIdentifier, originalValidator);
    p.PluginStart(kernel, allowAnyAddr, routeOk);
  }
}
