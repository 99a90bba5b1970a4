# BlueToolFixup page patcher, modelled in Dafny

This project models the page-patching engine of the BlueToolFixup plugin
(part of BrcmPatchRAM). The plugin replaces the kernel's code-page
validator with a wrapper. The wrapper first runs the original validator.
Then, for pages of `/usr/sbin/BlueTool` and `/usr/sbin/bluetoothd` only, it
rewrites a few byte patterns in the page in place, so that the Bluetooth
daemons accept third-party and older Broadcom chipsets.

Modules, one per component of `BlueToolFixup.cpp`'s core:

- `CTypes` (`ctypes.dfy`): bytes, `Option`, and the C-string rules the code
  relies on. `strlen`, `strcmp` and `strncmp` are modelled on the string
  before the first NUL. A string literal's `sizeof` counts the terminator
  (`CLiteral`).
- `Patterns` (`patterns.dfy`): the pattern table and the board-id allowlist,
  with lemmas about their sizes and shapes.
- `Patcher` (`patcher.dfy`): the search-and-patch primitive.
  - `FindAndReplace` is an array method that stands in for the host
    patcher's `findAndReplace`: it finds the first match, writes the
    replacement over its start, and reports whether a match was found.
  - `SearchAndPatch` and `SearchAndPatchArrays` are the plugin's two
    `searchAndPatch` overloads.
  - `Replaced` is the value-level specification that all of these are
    proved against.
- `Dispatch` (`dispatch.dfy`): the path test (`Classify`), the ordered and
  flag-guarded list of patches per executable (`Plan`), and what trying
  them in order does to a page (`ApplyAll`).
- `Fixup` (`fixup.dfy`): the `Plugin` class, which holds the plugin's two
  static flags and its routing state.
  - The patcher-load callback (`OnPatcherLoad`) runs the feature gate.
  - `PluginStart` is the start routine with its Monterey gate.
  - `PatchedValidatePage` is the wrapper.
  - `ValidatePage` is what the kernel runs: the wrapper when routing
    succeeded, the original otherwise.

External services are inputs of the model:

- `vn_getpath` is an `Option<seq<char>>` argument of the wrapper. `None`
  means resolution failed.
- `BaseDeviceInfo::get().boardIdentifier` is a constant, NUL-terminated
  byte buffer of the plugin object.
- The kernel version and minor version are a `KernelVersion` argument.
- `checkKernelArgument("-btlfxallowanyaddr")` is a boolean argument.
- Whether `routeMultipleLong` succeeds is a boolean argument.
- The original validator is a function from its call (arguments, page
  content, incoming output values) to the three output values.

Two facts of the code shape the model:

- The skip-update path pair is not equal in length. The original is 51
  bytes and the replacement 38 bytes, both counting the terminator. Only
  38 bytes are written, so the last 13 bytes of the match stay in the page
  (`"rmwareUpdate"` and its NUL). The path then reads as the boot loader's
  path because the replacement carries its own NUL.
- No length check guards the primitive. The model requires
  `replaceSize <= findSize`, which every call site meets.

## Model

| member | source | states |
|---|---|---|
| `CTypes.CStr` | BrcmPatchRAM/BlueToolFixup.cpp:161-164 | The C string in a buffer is a prefix of it, holds no NUL, and is followed by a NUL whenever it is shorter than the buffer. |
| `CTypes.CLiteral` | BrcmPatchRAM/BlueToolFixup.cpp:48-49 | A `uint8_t[]` string initializer has one byte per character, then a NUL counted in its size. |
| `CTypes.StrLen` | BrcmPatchRAM/BlueToolFixup.cpp:161 | `strlen` is the index of the first NUL, or the buffer's length when it has none. |
| `CTypes.StrEqual` | BrcmPatchRAM/BlueToolFixup.cpp:136-141 | `strcmp(a, b) == 0` holds exactly when the two strings have one length and agree character by character. The same call is at line 164. |
| `CTypes.StrNEqual` | BrcmPatchRAM/BlueToolFixup.cpp:134-135 | `strncmp(a, b, n) == 0` is equality of the first `n` characters when both strings are at least `n` long. When either is shorter, it is `strcmp` equality. |
| `CTypes.StrNEqualPrefix` | BrcmPatchRAM/BlueToolFixup.cpp:134-135 | `strncmp(path, lit, len(lit)) == 0`, with a NUL-free literal, holds exactly when the path's string begins with the literal. A shorter path fails. |
| `CTypes.CStrDrop` | BrcmPatchRAM/BlueToolFixup.cpp:136 | `path + dirLength` points at the rest of the same C string. |
| `CTypes.StrNEqualSplit` | BrcmPatchRAM/BlueToolFixup.cpp:135-136 | After a successful `strncmp` against the directory, the path's string is the directory followed by the string at `path + dirLength`. |
| `CTypes.CLiteralCStr` | BrcmPatchRAM/BlueToolFixup.cpp:109-111 | A literal without an inner NUL reads back, as a C string, as its own characters. |
| `CTypes.CStrOfPrefix` | BrcmPatchRAM/BlueToolFixup.cpp:137 | When the first `n` bytes already hold a terminator, later bytes do not change the string read. |
| `Patterns.OpcodePatchesFlipOneByte` | BrcmPatchRAM/BlueToolFixup.cpp:56-102 | Each opcode patch has its original's length and differs in one byte only. Vendor: index 6, 0x74 to 0xEB. Chipset: index 6, 0x72 to 0xEB. Address: index 10, 0x74 to 0x72. |
| `Patterns.SkipUpdateSizes` | BrcmPatchRAM/BlueToolFixup.cpp:48-49 | The skip-update original is 51 bytes and its replacement 38, both with the terminator. |
| `Patterns.SkipUpdateTail` | BrcmPatchRAM/BlueToolFixup.cpp:48-49 | The 13 bytes of the original past the replacement's length are `"rmwareUpdate"` and its NUL. |
| `Patterns.SkipUpdatePatchedReadsAsPath` | BrcmPatchRAM/BlueToolFixup.cpp:49 | Read as a C string, the replacement is `/System/Library/CoreServices/boot.efi` (37 characters). |
| `Patterns.TableFits` | BrcmPatchRAM/BlueToolFixup.cpp:107-111 | `kBoardIdSize` is 13. The allowlist has one entry of exactly 13 bytes ending in NUL. No table entry writes past its match. |
| `Patcher.FirstMatchFrom` | BrcmPatchRAM/BlueToolFixup.cpp:118 | The result is a match at or after `from`, and no offset before it matches. When there is no result, no offset from `from` on matches. |
| `Patcher.FindFirst` | BrcmPatchRAM/BlueToolFixup.cpp:118 | The scan of `data[..size]` returns the lowest matching offset, or reports none when the needle does not occur. |
| `Patcher.FindAndReplace` | BrcmPatchRAM/BlueToolFixup.cpp:118 | The result says whether the needle occurs. The window becomes `Replaced` of its old contents, and bytes past the window are untouched. |
| `Patcher.Replaced` | BrcmPatchRAM/BlueToolFixup.cpp:118 | What one `findAndReplace` does to a buffer: the first match's window takes the patch, and the length is kept. Its meaning is stated by `ReplacedAtFirstMatch` and `ReplacedWithoutMatch`. |
| `Patcher.MatchesApart` | BrcmPatchRAM/BlueToolFixup.cpp:136-148 | Occurrences of two `Apart` byte strings (different in their first two bytes, neither's first byte recurring later in the other) do not overlap. |
| `Patcher.ReplacedWithoutMatch` | BrcmPatchRAM/BlueToolFixup.cpp:117-120 | With no occurrence of the needle, no match is reported and the page is unchanged byte for byte. |
| `Patcher.ReplacedAtFirstMatch` | BrcmPatchRAM/BlueToolFixup.cpp:117-120 | With the lowest match at `k`, bytes `[k, k+replaceSize)` become the patch and every other byte is kept. When the patch is shorter, this includes the match's tail. |
| `Patcher.LaterMatchUntouched` | BrcmPatchRAM/BlueToolFixup.cpp:117-120 | A second occurrence after the first one survives the call intact. |
| `Patcher.SearchAndPatch` | BrcmPatchRAM/BlueToolFixup.cpp:117-120 | The explicit-size overload patches with the first `findSize` needle bytes and the first `replaceSize` patch bytes, and nothing else. |
| `Patcher.SearchAndPatchArrays` | BrcmPatchRAM/BlueToolFixup.cpp:122-125 | The array overload passes element count times `sizeof(uint8_t)` for both sizes, so both terminators take part. |
| `Dispatch.ClassifyExact` | BrcmPatchRAM/BlueToolFixup.cpp:134-141 | A path selects an executable exactly when its C string is `/usr/sbin/` followed by that basename, with no case folding. |
| `Dispatch.ClassifyNone` | BrcmPatchRAM/BlueToolFixup.cpp:135-141 | Every other path, including a failed or shorter prefix, selects nothing. |
| `Dispatch.BoardIdPatch` | BrcmPatchRAM/BlueToolFixup.cpp:139 | The board-id substitution finds 13 bytes and writes 13 bytes. |
| `Dispatch.Plan` | BrcmPatchRAM/BlueToolFixup.cpp:136-148 | Every planned patch writes inside its own match. |
| `Dispatch.PlanForBlueTool` | BrcmPatchRAM/BlueToolFixup.cpp:136-140 | BlueTool gets the skip-update patch first, then the board-id patch only when enabled. It never gets the vendor, chipset or address patch. |
| `Dispatch.PlanForBluetoothd` | BrcmPatchRAM/BlueToolFixup.cpp:141-148 | bluetoothd gets vendor, then chipset, then board-id if enabled, then address if enabled: 2 patches with both flags off, 4 with both on. Never the skip-update patch. |
| `Dispatch.Classify` | BrcmPatchRAM/BlueToolFixup.cpp:134-141 | The path test: `strncmp` against `/usr/sbin/`, then `strcmp` of the rest against `BlueTool`, then against `bluetoothd`. Its meaning is stated by `ClassifyExact`. |
| `Dispatch.ApplyAll` | BrcmPatchRAM/BlueToolFixup.cpp:136-148 | The page after each planned patch is tried in turn, each on the previous result. Its length is the page's. |
| `Dispatch.ApplyAllKeepsWindow` | BrcmPatchRAM/BlueToolFixup.cpp:136-148 | Bytes that no later needle can overlap survive every later patch. |
| `Dispatch.ApplyAllSnoc` | BrcmPatchRAM/BlueToolFixup.cpp:136-148 | Trying one more patch is one more independent search-and-replace on the current page. |
| `Dispatch.ApplyAllWithoutMatches` | BrcmPatchRAM/BlueToolFixup.cpp:136-148 | A page with none of the planned patterns is left unchanged. |
| `Dispatch.BlueToolEndToEnd` | BrcmPatchRAM/BlueToolFixup.cpp:137 | With both flags off, on a BlueTool page, the first occurrence of the update-skip path is rewritten in its first 38 bytes, its last 13 bytes keep `"rmwareUpdate\0"`, and every other byte is kept. |
| `Dispatch.BlueToolPathSurvives` | BrcmPatchRAM/BlueToolFixup.cpp:136-140 | For any flag setting, the first skip-update occurrence ends holding the 38 bytes of the boot loader path and its NUL. The board-id patch that may follow cannot overlap them. |
| `Dispatch.BlueToolReadsBootLoaderPath` | BrcmPatchRAM/BlueToolFixup.cpp:136-140 | For any flag setting and whatever the untouched tail holds, the C string at the match offset is `/System/Library/CoreServices/boot.efi`. |
| `Dispatch.BluetoothdVendorEndToEnd` | BrcmPatchRAM/BlueToolFixup.cpp:141-148 | For any flag setting, the first vendor-check occurrence ends as `81 FA 5C 0A 00 00 EB`. The chipset, board-id and address patches that follow cannot overlap it. |
| `Fixup.BoardIdPatchWanted` | BrcmPatchRAM/BlueToolFixup.cpp:161-167 | The board-id gate: `strlen` plus one equals `kBoardIdSize`, and no allowlist entry compares equal. Its meaning is stated by `BoardIdGateExact`. |
| `Fixup.InterceptionSupported` | BrcmPatchRAM/BlueToolFixup.cpp:158 | The start routine's test: the kernel is Monterey (Darwin 21) or later. |
| `Fixup.AddressPatchSupported` | BrcmPatchRAM/BlueToolFixup.cpp:168 | The address gate: Darwin 21.5 or later, or any later major version. |
| `Fixup.ValidationOutputs.constructor` | BrcmPatchRAM/BlueToolFixup.cpp:130 | The three output parameters `validated_p`, `tainted_p` and `nx_p`, holding the given verdict. |
| `Fixup.BoardIdReplacementIsTerminated` | BrcmPatchRAM/BlueToolFixup.cpp:139 | When the gate is open, the 13 bytes written are this board's identifier and its terminator. |
| `Fixup.BoardIdGateExact` | BrcmPatchRAM/BlueToolFixup.cpp:160-167 | The gate opens exactly for a 12-character identifier other than `Mac-F22586C8`, whatever follows the buffer's terminator. |
| `Fixup.Plugin.constructor` | BrcmPatchRAM/BlueToolFixup.cpp:104-105 | Both flags start false, and nothing is routed. |
| `Fixup.Plugin.OnPatcherLoad` | BrcmPatchRAM/BlueToolFixup.cpp:159-173 | The board-id flag equals the gate (length check, then the allowlist loop with `break`). The address flag takes the boot argument only from 21.5 on and is kept otherwise. Routing records the host's result. |
| `Fixup.Plugin.PluginStart` | BrcmPatchRAM/BlueToolFixup.cpp:155-176 | From Monterey on, the callback's effects. Below Monterey, no flag or routing state changes. |
| `Fixup.Plugin.PatchedValidatePage` | BrcmPatchRAM/BlueToolFixup.cpp:130-150 | The outputs are the original validator's, called with the incoming arguments and the page before patching. The page changes only for a resolved path in `/usr/sbin/` with an exact basename, and then becomes `ApplyAll` of that executable's plan. |
| `Fixup.Plugin.PatchBlueToolPage` | BrcmPatchRAM/BlueToolFixup.cpp:136-140 | The BlueTool branch leaves the page as `ApplyAll` of BlueTool's plan. |
| `Fixup.Plugin.PatchBluetoothdPage` | BrcmPatchRAM/BlueToolFixup.cpp:141-148 | The bluetoothd branch leaves the page as `ApplyAll` of bluetoothd's plan. |
| `Fixup.Plugin.TryPatch` | BrcmPatchRAM/BlueToolFixup.cpp:137 | One array-overload call over `PAGE_SIZE` extends the page's `ApplyAll` by that patch. |
| `Fixup.Plugin.TryBoardIdPatch` | BrcmPatchRAM/BlueToolFixup.cpp:139 | The explicit-size board-id call extends the page's `ApplyAll` by the board-id patch. |
| `Fixup.Plugin.ValidatePage` | BrcmPatchRAM/BlueToolFixup.cpp:171-173 | If routing failed, the page is never touched and the outputs are the original's. If it succeeded, the wrapper's contract holds. |
| `Fixup.Boot` | BrcmPatchRAM/BlueToolFixup.cpp:155-176 | From a fresh plugin that holds the given board identifier and original validator: the board-id flag is on iff the kernel is Monterey or later and the board gate is open. The address flag is on iff the kernel is at least 21.5 and the boot argument is present. Routing is on iff the kernel is Monterey or later and the route succeeded. |

## Left out

- The `IOService` subclass (`probe`, `start`, `setProperty`,
  `registerService`) and the metaclass macros: framework plumbing with no
  effect on patching.
- The boot-argument arrays and the plugin configuration record decide
  whether the host calls `pluginStart` at all. `-btlfxoff`
  (BrcmPatchRAM/BlueToolFixup.cpp:179-181) switches the plugin off, and the
  kernel bounds at lines 200-201 (Monterey to Monterey) limit the kernels
  it starts on. The model assumes `pluginStart` is called and keeps only
  that function's own Monterey test (line 158).
- The interception machinery (`routeMultipleLong`, `FunctionCast`,
  `orig_cs_validate`) is not modelled. The original validator is a
  function held by the plugin object, and a failed route is a flag under
  which the kernel keeps using the original.
- `onPatcherLoadForce` registers the callback and runs it later. The model
  runs it from `PluginStart` directly, because nothing happens in between.
- The body of the host patcher's `findAndReplace` is not part of this
  model.
  - `FindAndReplace` is a stand-in: a first-match scan plus an in-place
    copy.
  - Its toggling of kernel write protection, and the failure of that
    toggle, are left out because they are not visible.
  - An empty needle matches at offset 0. No call site uses one.
- `FindAndReplace`, `SearchAndPatch`, `SearchAndPatchArrays`: these
  require `replaceSize <= findSize`. The source has no check for it; every
  call site meets it, and it keeps the write inside the page.
- `Fixup.Plugin.PatchedValidatePage`:
  - It requires the page to be exactly `PAGE_SIZE` (4096) bytes, which the
    host guarantees.
  - The original validator is modelled as not writing the page.
  - The `PATH_MAX` bound on the resolved path is not modelled, because no
    behaviour depends on it.
- `SYSLOG` and `DBGLOG` output, including the "found string to patch"
  message, is not modelled, because it is diagnostic only.
- Concurrent validation of pages on several threads is not modelled. The
  model runs one call at a time, which matches the single-writer flags and
  the exclusive page ownership the plugin assumes.
- The `const_cast` removal of write protection is not modelled, and neither
  is the machine-code meaning of the patched opcodes: patterns are treated
  as opaque bytes.
