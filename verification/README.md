# Guest to host: shared folder requests, the VBVA ring, and two small decoders

A Dafny model of four places where VirtualBox guest code and host code have to
agree on bytes in memory, with proofs that they do.

**Shared folder requests.** The ring-0 builders of
`VBoxGuestLibSharedFoldersInline.h` fill in an HGCM call in guest memory and
pick a transport for every buffer (embedded in the request, linear address,
page list, contiguous page list, no-bounce page list) from the host's feature
mask and from whether a buffer crosses a page. `Marshal`, `Carry`,
`SharedFolders`, `FileIo`, `PageListIo` and `PhysHeap` do the same, store by
store, in an array of guest RAM, for 32-bit and 64-bit parameters. `Hgcm` is
the host side as `VMMDevHGCM.cpp` has it: decoding and validation of the
request, what the service is handed, and both ways of completing a call (in
the locked request, or in a copy that is written back whole). The central
results:

* `Transport.Served`: a request that carries the right bytes is served as
  `Transport.Serve` says, a specification in which no request, no descriptor
  and no feature occurs, and it makes no difference how the host completes it.
* `Delivery` says in so many words what that is: the call the service is handed,
  value by value and byte by byte, and where each value and byte of its reply
  ends up; `FileIo.Transferred`, `PhysHeap.FolderMapped` and `PhysHeap.LinkRead`
  spell it out for single requests. `Transport.Marked` adds that a served request
  is marked as done.
* `HostSafety`: of any request the host accepts, whatever it holds, it reads and
  writes only the submitted bytes and what the request's buffers name.
* Every builder's contract (`CallDone`) is that same specification, applied to
  the strings and buffers the caller passed. So status, returned values and all
  of memory outside the request's own descriptors are those of calling the
  service directly, whatever the features: `Marshal.TransportInvisible`. Every
  builder also promises that the parts of its request have each their own place
  (`LaidOut`), which `Marshal.Guest.PartsApart` turns into what the host decodes,
  and that it uses a transport just when the host announced it (`Transports`).
* Where the code does *not* do that, the exact condition is proved, over what two
  drivers get that know different things of the host. An embedded transfer
  beyond 1 MB is refused, so they differ exactly when only one of them makes a
  request too large, unless the data limit is passed and neither is told the
  host's reason (`FileIo.EmbeddedVisible`). Of full page lists a no-bounce one is
  refused when it has a page too many, and otherwise a service finds what the
  guest left in a buffer to be read into; so drivers that choose different types
  differ exactly when a list that is submitted, within the data limit, has a page
  too many, or is read into while the buffer is not all zeros
  (`PageListIo.TransferVisible`). The folder name may be written to when it goes by
  page list, so services can tell exactly whether the host has contiguous lists
  (`SharedFolders.MapFolderVisible`).

**VBVA.** `Vbva` has the steps of guest and host on the ring and the record
queue; the guest's chunk goes in by three separate steps and the host hands out
a command in place before it releases it. `VbvaSafety.StreamSafety` holds for
every interleaving. `VbvaFlush` shows that a flush the host goes through
with leaves the guest more room than the threshold. `VbvaBuffer` is the code on fields and arrays, tied to
the steps; its `HwBufferWrite` overflows, while the host serves the ring, only
right after a flush for which the guest got no command buffer.

**Packet dump.** `PktDmp` compares the loop over IPv6 extension headers with a
parser and an encoder made from RFC 8200 (section 4) and RFC 4302 (section 2.2),
and says when the loop, which checks no bounds, reads beyond the frame.

**Pointer image.** `MousePointer` compares 32-bit size arithmetic with the exact
sizes, proves the documented layout of the two masks, and when the host takes a
request of the computed size.

Guest RAM is one array; a byte outside it reads as 0xff and writes to it are
dropped. `PAGE_SIZE` is 4096. The service is a function from the call it is
handed to its reply. Layouts of the parameter structures come from
`include/VBox/shflsvc.h`. Memory below 4 GB holds the request block, since
`GCPhysReq` has 32 bits.

Where code and documentation disagree, the code was followed. The VBVA comment
(`include/VBox/VMMDev.h:1877-1891`) names a fixed ring size and a 4 KB
threshold and speaks of records below 2 GB; the code takes size and threshold
from the buffer (256 as set up by the guest), and the host refuses records over
128 MB, and finished ones of less than 8 bytes, by switching VBVA off
(`VbvaSafety.FetchKeeps`, `VbvaSafety.EmptyRecordStops`). The builders return the
fast call's status if it is an error
(`include/VBox/VBoxGuestLibSharedFoldersInline.h:404-407`); but that is the status
of reaching the driver, which puts the host's into the header
(`src/VBox/Additions/common/VBoxGuest/VBoxGuest.cpp:4144`). So a call the host
refuses comes back as the result's preset `VERR_INTERNAL_ERROR`, whatever the
reason; only the glue for Windows takes the host's status out of the header
(`Guest.RefusedStatus`). The packet dump takes
a fragment header's reserved byte for a length (`PktDmp.ChainsAgree`,
`PktDmp.ReservedAstray`).

## Model

| member | source | states |
|---|---|---|
| PageLists.GuestBufferIsContiguous | src/VBox/Devices/VMMDev/VMMDevHGCM.cpp:574-601 | the loop with its wrapping 64-bit address finds exactly whether every page follows the first by its distance |
| PageLists.GuestBufferRead | src/VBox/Devices/VMMDev/VMMDevHGCM.cpp:603-647 | shortcut and page-by-page copy both fill the host buffer with the bytes at the buffer's read addresses, in order, zero where a page is missing |
| PageLists.GuestBufferWrite | src/VBox/Devices/VMMDev/VMMDevHGCM.cpp:649-686 | memory afterwards is the scatter of the first min(sizes) bytes over the buffer's write addresses; bytes past the listed pages go nowhere |
| PageLists.ShortcutRefines | src/VBox/Devices/VMMDev/VMMDevHGCM.cpp:603-620 | for any full list of contiguous pages, the one-piece shortcut touches the same bytes in the same order as the page-by-page copy |
| PageLists.ContiguousRefinesFull | include/VBox/VBoxGuestLibSharedFoldersInline.h:1088-1096 | the one entry made by masking a physical address stands for the same bytes as the list of all its pages, for any address and length |
| PageLists.OnePageWriteBack | include/VBox/VBoxGuestLibSharedFoldersInline.h:273-283 | a plain one-entry list is read whole, but written whole if and only if the buffer does not cross the page's end; no byte beyond is written |
| PageLists.LinPagesFull | src/VBox/Devices/VMMDev/VMMDevHGCM.cpp:914-972 | the pages the host looks up under a mapped linear buffer are a full list, and their bytes are the buffer's bytes |
| PageLists.LinearDenotes | src/VBox/Devices/VMMDev/VMMDevHGCM.cpp:914-972 | read or written back, a linear address parameter is the bytes mapped at that address, contiguous or not |
| PageLists.ListReadsBack | src/VBox/Devices/VMMDev/VMMDevHGCM.cpp:603-686 | each byte once and in order: what is written to a buffer given by different pages of RAM is what is then read from it, through either path |
| Bytes.ScatterIdle | src/VBox/Devices/VMMDev/VMMDevHGCM.cpp:649-686 | a scatter over distinct addresses changes nothing if and only if its data is there already |
| Marshal.Guest.PartsApart | include/VBox/VBoxGuestLibSharedFoldersInline.h:381-402 | decoded from the bytes of a laid-out request, embedded buffers and page lists with the pages they count lie in the submitted call behind the parameters and do not overlap, and the call ends with an embedded buffer if there is one |
| Transport.ParseCarried | src/VBox/Devices/VMMDev/VMMDevHGCM.cpp:844-1158 | decoding the parameters of a request that carries a view yields that view, in order, and each properly placed; or the data limit's error, exactly when the sizes exceed it |
| Transport.ParseRejected | src/VBox/Devices/VMMDev/VMMDevHGCM.cpp:844-1158 | whatever the valid parameters before it describe, the first that does not validate turns the whole call down with its own error, or the data limit's when the sizes pass that by then |
| Transport.CopyIsInPlace | src/VBox/Devices/VMMDev/VMMDevHGCM.cpp:1337-1468 | completing through a copy and writing it back leaves the memory that completing in place does, for any parameters properly placed |
| Transport.LockedOrNot | src/VBox/Devices/VMMDev/VMMDevHGCM.cpp:1515-1650 | locked or not, result, done flag and all of memory come out the same |
| Transport.Marked | src/VBox/Devices/VMMDev/VMMDevHGCM.cpp:1515-1680 | a served request, completed either way, has its done flag set, its other flags as submitted and its result in two's complement; a refused one its flags as submitted |
| Transport.SubmittedBytesStay | src/VBox/Devices/VMMDev/VMMDevHGCM.cpp:1517-1595 | when the host completes through a copy, no reply can change a submitted byte behind the parameters that is in no embedded buffer, whatever else is embedded: why sizes stop before linear output buffers |
| Transport.CompleteIsWriteBack | src/VBox/Devices/VMMDev/VMMDevHGCM.cpp:1337-1468 | completion writes to the view's write addresses and otherwise only inside the request's own descriptors |
| Transport.CompleteReturns | src/VBox/Devices/VMMDev/VMMDevHGCM.cpp:1368-1379 | after completion every value parameter's slot holds the service's value for it, not disturbed by later parameters |
| Transport.SizesReturn | src/VBox/Devices/VMMDev/VMMDevHGCM.cpp:1396-1468 | after completion the slot of an embedded, contiguous or no-bounce buffer holds how much the service handed back |
| Transport.CallSame | src/VBox/Devices/VMMDev/VMMDevHGCM.cpp:688-796 | what the service is handed does not depend on what stands in the descriptors |
| Transport.Served | src/VBox/Devices/VMMDev/VMMDevHGCM.cpp:1160-1270 | for every carried view, service and kind of completion: status, memory outside the descriptors and values are those of serving the view directly, with the request and data limits' errors |
| Delivery.HandedOver | src/VBox/Devices/VMMDev/VMMDevHGCM.cpp:688-796 | the service is handed client and function, every 32-bit and 64-bit value whole, the memory bytes at a read buffer's addresses and zeros for any other; status and reply are its answer to exactly that call |
| Delivery.DataComesBack | src/VBox/Devices/VMMDev/VMMDevHGCM.cpp:1337-1468 | every byte the service hands back for a buffer ends up at that buffer's address for it, up to the shorter of the two; the rest of the buffer is as it was |
| Delivery.OthersStay | src/VBox/Devices/VMMDev/VMMDevHGCM.cpp:1337-1468 | a byte of no buffer that comes back is as it was |
| Delivery.ValueComesBack | src/VBox/Devices/VMMDev/VMMDevHGCM.cpp:1368-1379 | a 32-bit or 64-bit value the service gives back stands whole in its parameter's slot |
| HostSafety.AcceptedSound | src/VBox/Devices/VMMDev/VMMDevHGCM.cpp:844-1270 | whatever memory holds, an accepted request has a proper size and kind, at most 32 parameters and 128 MB of buffers; embedded buffers and page lists with all their entries lie in the submitted bytes behind the parameters, and directions are valid |
| HostSafety.OnlyNamedWritten | src/VBox/Devices/VMMDev/VMMDevHGCM.cpp:1337-1680 | whatever is submitted and answered, the host writes only to the submitted bytes and to the pages, or the contiguous run, that buffers that come back name; of a refused request only to its status |
| HostSafety.OnlyNamedRead | src/VBox/Devices/VMMDev/VMMDevHGCM.cpp:688-1270 | memories that agree on the submitted bytes and on what the buffers that are read name are accepted alike and hand the service the same call |
| Marshal.Guest.InitCall | include/VBox/VBoxGuest.h:416-435 | the header written leads the host to the call part, with the size less the fast call header, announces function and parameter count, and presets the result |
| Marshal.Guest.InitReqHdr | include/VBox/VBoxGuestCoreTypes.h:94-102 | both sizes, version, type, preset status and reserved field are in place, and nothing outside the header is written |
| Marshal.Guest.SetParm32 | include/VBox/VBoxGuestLibSharedFoldersInline.h:378-379 | the two assignments of a 32-bit parameter make it decode to that value, and the rest of the request is as it was |
| Marshal.Guest.SetParm64 | include/VBox/VBoxGuestLibSharedFoldersInline.h:477-478 | the two assignments of a 64-bit parameter make it decode to that value, and the rest of the request is as it was |
| Marshal.Guest.SetLinAddr | include/VBox/VBoxGuestLibSharedFoldersInline.h:395-401 | the parameter decodes to that direction, size and address in either pointer size |
| Marshal.LinType | include/VBox/VBoxGuestLibSharedFoldersInline.h:383-400 | the linear address type chosen transfers in exactly the direction the embedded or page list flags say |
| Marshal.FeatureBits | include/VBox/VMMDev.h:527-536 | the three transports are announced by bits 1 to 3 of the feature mask |
| Marshal.Guest.SetEmbedded | include/VBox/VBoxGuestLibSharedFoldersInline.h:383-391 | flags and 24-bit offset share a word and still decode to the direction, offset and size given |
| Marshal.Guest.SetOnePage | include/VBox/VMMDev.h:1661-1672 | the list decodes to the direction, offset and single page given, and what was filled in before is as it was |
| Marshal.Guest.Submit | include/VBox/VBoxGuestLibSharedFoldersInline.h:404-407 | the status returned is the served call's; of a refused call it is the host's with the glue for Windows and the preset one elsewhere, and memory is left alone |
| Marshal.TransportInvisible | include/VBox/VBoxGuestLibSharedFoldersInline.h:381-402 | two drivers with different features, on hosts completing differently, get the same status, memory and values from a call |
| Carry.CarryField | include/VBox/VBoxGuestLibSharedFoldersInline.h:381-402 | a field of the request stands for the same bytes embedded as by its linear address, as long as linear output is not submitted |
| Carry.CarrySeparate | include/VBox/VBoxGuestLibSharedFoldersInline.h:1088-1103 | a contiguous buffer elsewhere stands for the same bytes by one-entry list as by its linear address |
| Carry.CarryOnePage | include/VBox/VBoxGuestLibSharedFoldersInline.h:1452-1471 | a contiguous list always reaches the whole buffer, a plain one-entry list when the buffer stays on the page or only goes to the host |
| Carry.CarryNothing | include/VBox/VBoxGuestLibSharedFoldersInline.h:1350-1364 | a size of zero is an absent buffer whatever its address, even with no page |
| Carry.CarryOnePageBoth | include/VBox/VBoxGuestLibSharedFoldersInline.h:273-283 | a plain one-entry list in both directions is read whole and written on its first page only |
| SharedFolders.ReqMapFolderWithContig | include/VBox/VBoxGuestLibSharedFoldersInline.h:255-291 | the call is served on the folder name; with page lists the name's first page may also be written; the list is used just when contiguous lists are announced |
| SharedFolders.MapFolderVisible | include/VBox/VBoxGuestLibSharedFoldersInline.h:271-285 | two drivers get the same from mapping a folder, for every service, if and only if their feature masks agree on contiguous page lists |
| SharedFolders.ReqCreate | include/VBox/VBoxGuestLibSharedFoldersInline.h:370-408 | the call is served on path and creation parameters in the block, whatever the features; both are embedded just when that is announced |
| SharedFolders.ReqRemove | include/VBox/VBoxGuestLibSharedFoldersInline.h:713-747 | the call is served on the path in the block and the flags, whatever the features; the path is embedded just when that is announced |
| SharedFolders.ReqCloseAndRemove | include/VBox/VBoxGuestLibSharedFoldersInline.h:759-797 | the call is served on path, flags and handle, whatever the features; the path is embedded just when that is announced |
| SharedFolders.ReqRenameWithSrcContig | include/VBox/VBoxGuestLibSharedFoldersInline.h:811-863 | the call is served on the separate source and the embedded destination, for all four mixes of transports; each transport just when it is announced |
| SharedFolders.ReqReadLinkContig | include/VBox/VBoxGuestLibSharedFoldersInline.h:1430-1484 | in all cases of features and page crossing the three-way size covers what is emitted: the call is served on the path and fills the whole buffer; each transport just when it is announced, but for a plain list on one page |
| SharedFolders.ReqCreateSymlinkContig | include/VBox/VBoxGuestLibSharedFoldersInline.h:1537-1605 | in all cases the call is served on link path and whole target, and the object information comes back; each transport just when it is announced, but for a plain list on one page |
| FileIo.ReqQueryObjInfo | include/VBox/VBoxGuestLibSharedFoldersInline.h:519-556 | the call is served with the information coming back into the block, whatever the features |
| FileIo.ReqSetObjInfo | include/VBox/VBoxGuestLibSharedFoldersInline.h:562-599 | the call is served with the information going both ways, whatever the features |
| FileIo.ReqSetFileSizeOld | include/VBox/VBoxGuestLibSharedFoldersInline.h:605-642 | the same with the flags that set the size |
| FileIo.ReqSetObjInfoWithBuf | include/VBox/VBoxGuestLibSharedFoldersInline.h:658-697 | the call is served on a separate object information, found through an offset into its allocation |
| FileIo.SiblingOffset | include/VBox/VBoxGuestLibSharedFoldersInline.h:676-681 | the list offset taken from the sibling structure is the list's own, for both parameter sizes, if and only if that structure's field is not aligned to 8 |
| FileIo.ReqTransferEmbedded | include/VBox/VBoxGuestLibSharedFoldersInline.h:978-1017 | reading (and writing, lines 1125-1164): served on the data in the block, except that an embedded transfer over the request limit is refused, with the status refused calls have, and changes nothing; else the service is handed root, handle, offset and size whole and the data to write, and what it reads is in the block |
| FileIo.EmbeddedVisible | include/VBox/VBoxGuestLibSharedFoldersInline.h:981-1012 | two drivers get the same from such a transfer, for every service, if and only if both or neither make a request over the request limit, or the data limit is passed and neither is told the host's reason |
| FileIo.ReqTransferContig | include/VBox/VBoxGuestLibSharedFoldersInline.h:1070-1109 | reading (and writing, lines 1217-1256): served on the separate buffer, whatever the features; the service is handed root, handle, offset and size whole and the data to write, and what it reads is in the buffer |
| FileIo.ReqListDirContig2x | include/VBox/VBoxGuestLibSharedFoldersInline.h:1324-1393 | served on filter and buffer by two lists or two addresses, the filter possibly absent |
| PageListIo.ReqTransferPgLst | include/VBox/VBoxGuestLibSharedFoldersInline.h:1031-1064 | reading (and writing, lines 1178-1211), for any list the caller put there: a count over 16 bits is never submitted; a list the host does not take is refused and changes nothing; else the call is served on exactly the bytes the list stands for |
| PageListIo.DoneIsPgLstAnswer | include/VBox/VBoxGuestLibSharedFoldersInline.h:1031-1064 | what the request comes to is the answer the two results below are about: out of range, refused, or the service's |
| PageListIo.PgLstDelivers | include/VBox/VBoxGuestLibSharedFoldersInline.h:1031-1064 | on a full list of different pages the service is handed root, handle, offset and size whole and the bytes of the pages in order, and what it reads is there in order |
| PageListIo.ListResolved | src/VBox/Devices/VMMDev/VMMDevHGCM.cpp:973-1100 | the host makes of the caller's list exactly its pages and offset, or refuses it with that error, if and only if it is empty, starts beyond its first page or, without bouncing, has a wrong count or unaligned pages |
| PageListIo.ListDenotes | src/VBox/Devices/VMMDev/VMMDevHGCM.cpp:603-796 | a full list of any length stands for its bytes page by page; without bouncing also for what the guest left in them |
| PageListIo.OffsetInFirst | src/VBox/Devices/VMMDev/VMMDevHGCM.cpp:603-686 | with its offset in the first entry (lines 1030-1043 let it be) a no-bounce list stands for the right bytes; a plain list writes the right ones if and only if there is no such offset, and reads them if and only if there is none or a single page; else both go too far by the offset on the first page |
| PageListIo.ListOfLinear | include/VBox/VBoxGuestLibSharedFoldersInline.h:1031-1064 | the list of the pages under a linear buffer is one every host takes and stands for that buffer; its count fits, so that it gets there, if and only if the buffer spans at most 65535 pages |
| PageListIo.TransferVisible | src/VBox/Devices/VMMDev/VMMDevHGCM.cpp:1012-1022 | for full lists two drivers get the same from a transfer, for every service, if and only if they choose the same list type, or the list is not submitted or over the data limit, or it has no page too many and is written from or read into while all zeros (lines 774-783) |
| PageListIo.SurplusPage | src/VBox/Devices/VMMDev/VMMDevHGCM.cpp:1012-1022 | a list of two pages for ten bytes, written from: served as a plain list, refused as a no-bounce one |
| PhysHeap.Heap.Free | src/VBox/Additions/common/VBoxGuest/lib/VBoxGuestR0LibPhysHeap.cpp:543-600 | the block is no longer in use, memory outside it is as before, and of what it holds nothing is promised, so no wrapper can have used it after freeing it |
| PhysHeap.Heap.LiveIsClear | src/VBox/Additions/common/VBoxGuest/lib/VBoxGuestR0LibPhysHeap.cpp:404-541 | memory of a block in use is clear of what the next allocation gets |
| PhysHeap.Heap.QueryFeaturesSimple | include/VBox/VBoxGuestLibSharedFoldersInline.h:109-124 | the blocks in use are as before on every path; features and last function are the service's, or the fallbacks when it fails; the service is asked with two zeros, and both its values come back whole |
| PhysHeap.ReqQueryFeatures | include/VBox/VBoxGuestLibSharedFoldersInline.h:76-103 | on failure the slots hold the fallback values and "not supported" becomes a success code |
| PhysHeap.Heap.MapFolderWithContigSimple | include/VBox/VBoxGuestLibSharedFoldersInline.h:296-309 | for any contiguous name clear of the block that is allocated: the blocks in use are as before on every path; the root is the service's on success and the nil root otherwise; the service is handed the name's bytes, no root, delimiter and case flag |
| PhysHeap.Heap.ReadLinkContigSimple | include/VBox/VBoxGuestLibSharedFoldersInline.h:1494-1517 | for any contiguous buffer clear of the block that is allocated: the blocks in use are as before on every path; too long paths and failed allocations touch nothing; else the call is served on the string of the path; the service is handed root, the path's string and a cleared buffer, and its data is in the caller's buffer |
| PhysHeap.PathSeen | include/VBox/VBoxGuestLibSharedFoldersInline.h:1503-1506 | the bytes the service is handed are the size with terminator and the length, 16 bits each and not cut, the path, and the terminator |
| Vbva.PlacedReads | src/VBox/Additions/common/VBoxVideo/VBVABase.cpp:250-269 | a chunk placed after what is in the ring is read after it, wrapping or not |
| VbvaSafety.GrowKeeps | src/VBox/Additions/common/VBoxVideo/VBVABase.cpp:330-333 | adding the chunk to the record's size keeps queue and ring in step |
| VbvaSafety.BeginKeeps | src/VBox/Additions/common/VBoxVideo/VBVABase.cpp:153-201 | a new record keeps the invariant and the queue within its slots |
| VbvaSafety.PartialReadKeeps | src/VBox/Devices/Graphics/DevVGA_VBVA.cpp:154-199 | given memory, a partial read makes the host's part all the guest has put into the record so far, and does not fail |
| VbvaSafety.FetchKeeps | src/VBox/Devices/Graphics/DevVGA_VBVA.cpp:206-347 | the host gives up if and only if the head record is over the limit, or finished without a command header, or takes memory that is not to be had; otherwise the invariant holds on |
| VbvaSafety.ReleaseKeeps | src/VBox/Devices/Graphics/DevVGA_VBVA.cpp:349-383 | a command handed out in place is still as the guest wrote it when it is released |
| VbvaSafety.StreamSafety | include/VBox/VMMDev.h:1877-1934 | in every run the processed records are, whole and in order, the first the guest wrote, and the bytes fetched a prefix of its bytes, also for records larger than the ring |
| VbvaSafety.EmptyRecordStops | src/VBox/Devices/Graphics/DevVGA_VBVA.cpp:418-431 | a record begun and ended empty switches VBVA off |
| VbvaFlush.TurnPops | src/VBox/Devices/Graphics/DevVGA_VBVA.cpp:403-484 | a turn takes a finished record off the queue and leaves one being written in it |
| VbvaFlush.FetchOngoing | src/VBox/Devices/Graphics/DevVGA_VBVA.cpp:273-295 | a record still being written is left alone until it nearly fills the ring, and then fetched as far as it goes |
| VbvaFlush.DrainWorks | src/VBox/Devices/Graphics/DevVGA_VBVA.cpp:385-505 | a flush keeps the invariant and processes all finished records, and does not fail on a queue of records the host takes while there is memory |
| VbvaFlush.DrainedRoom | src/VBox/Additions/common/VBoxVideo/VBVABase.cpp:302-324 | when the host has drained the ring more bytes are free than the threshold, exactly the ring less a small unfetched record |
| VbvaFlush.DrainedSlot | src/VBox/Additions/common/VBoxVideo/VBVABase.cpp:171-182 | when the host has drained the ring a new record finds a slot |
| VbvaFlush.DrainRoom | src/VBox/Additions/common/VBoxVideo/VBVABase.cpp:302-324 | a flush never leaves less room, and the record being written stays below the host's limit by what fits the ring, even when the host gives up on the way |
| VbvaBuffer.Buffer.HwBufferAvail | src/VBox/Additions/common/VBoxVideo/VBVABase.cpp:224-229 | signed 32-bit differences give the free bytes and do not overflow |
| VbvaBuffer.Buffer.PlaceDataAt | src/VBox/Additions/common/VBoxVideo/VBVABase.cpp:250-269 | one or two copies leave the ring with the chunk placed and all else as it was |
| VbvaBuffer.Buffer.CopyFromRing | src/VBox/Devices/Graphics/DevVGA_VBVA.cpp:131-144 | one or two copies fetch the bytes of the ring from the offset on, in order |
| VbvaBuffer.Buffer.FetchCmd | src/VBox/Devices/Graphics/DevVGA_VBVA.cpp:206-347 | on fields and arrays, the fetch does the protocol's step, in every branch, with or without memory |
| VbvaBuffer.Buffer.FlushProcess | src/VBox/Devices/Graphics/DevVGA_VBVA.cpp:385-505 | the loop ends and does what draining by single steps does, or switches VBVA off exactly when that fails |
| VbvaBuffer.Buffer.HwBufferFlush | src/VBox/Additions/common/VBoxVideo/VBVABase.cpp:231-248 | with a command buffer the ring is drained, if the host serves it and goes on to; without one nothing changes |
| VbvaBuffer.Buffer.BufferBeginUpdate | src/VBox/Additions/common/VBoxVideo/VBVABase.cpp:153-201 | it flushes exactly when all slots are taken, and then, while the host serves the ring, starts a record if and only if the flush could be sent |
| VbvaBuffer.Buffer.BufferEndUpdate | src/VBox/Additions/common/VBoxVideo/VBVABase.cpp:203-219 | finishes the record and clears the overflow mark |
| VbvaBuffer.Buffer.HwBufferWrite | src/VBox/Additions/common/VBoxVideo/VBVABase.cpp:271-343 | all bytes go into the record, however small the ring and many the bytes, or it overflows with no more room than the threshold after a flush, which while the host serves the ring could not be sent; with no help from the host it succeeds if and only if the bytes are fewer than what is free; the host keeps serving the ring while records are ones it takes |
| PktDmp.ChainsAgree | include/VBox/VBoxPktDmp.h:107-123 | the loop visits the same headers as the standards do if and only if every fragment header's reserved byte on the way is zero |
| PktDmp.EncodedFound | include/VBox/VBoxPktDmp.h:107-123 | an encoded chain is found again header by header at its offsets, whatever surrounds it |
| PktDmp.EncodeLength | include/VBox/VBoxPktDmp.h:107-123 | every extension header of an encoded chain takes eight bytes or more |
| PktDmp.ChainParts | include/VBox/VBoxPktDmp.h:107-123 | all headers on the way but the last are extensions that start in the frame, eight bytes or more apart |
| PktDmp.EthPacketDump | include/VBox/VBoxPktDmp.h:52-169 | for any bytes: behind an optional VLAN tag the loop ends at the chain's last header after as many rounds as there are headers, or reads beyond the frame there |
| PktDmp.PayloadFound | include/VBox/VBoxPktDmp.h:58-69 | behind an encoded Ethernet header, tagged or not, type and start of the payload are found |
| PktDmp.IPv4Found | include/VBox/VBoxPktDmp.h:81-86 | in any frame with an IPv4 header of 5 to 15 words, tagged or not, the walk starts, and for protocols that are no IPv6 extension ends, at the header's protocol and 4 bytes for each word behind the Ethernet header |
| PktDmp.NotWalked | include/VBox/VBoxPktDmp.h:57-103 | a frame of another type, or whose IP header is cut off, is not walked |
| PktDmp.SegmentSaid | include/VBox/VBoxPktDmp.h:153-158 | of twelve encoded bytes of a TCP header the dump says the ports and numbers encoded |
| PktDmp.PortsSaid | include/VBox/VBoxPktDmp.h:159-163 | of four encoded bytes of a UDP header the dump says the ports encoded |
| PktDmp.MessageSaid | include/VBox/VBoxPktDmp.h:133-152 | of ICMP echoes only the type is looked at, of other messages the code too |
| PktDmp.ReadsInside | include/VBox/VBoxPktDmp.h:105-165 | the dump reads inside the frame only if and only if every header it comes to, the upper layer's included, is there as far as it looks at it; it goes round once for every eight bytes behind the fixed headers and once more |
| PktDmp.RoundsBound | include/VBox/VBoxPktDmp.h:105-165 | on an IPv6 frame whose extension headers end inside it the loop goes round at most (cb - 54) / 8 + 1 times |
| PktDmp.DumpFindsUpper | include/VBox/VBoxPktDmp.h:70-165 | on every frame with an encoded chain and zero reserved bytes the walk ends at the upper-layer protocol and where its header is, within (cb - 54) / 8 + 1 rounds, and reads beyond the frame if and only if that header is cut off |
| PktDmp.IPv6Found | include/VBox/VBoxPktDmp.h:70-165 | so for a frame put together from an Ethernet header, tagged or not, an IPv6 header and an encoded chain, at 54 or 58 bytes and the length of the chain |
| PktDmp.ReservedAstray | include/VBox/VBoxPktDmp.h:114-118 | a whole frame (Ethernet, IPv6, fragment header, TCP) on which a reserved byte makes the dump take what is 8 bytes further for the TCP header |
| PktDmp.ReservedOutside | include/VBox/VBoxPktDmp.h:114-118 | a frame with every header whole on which a reserved byte makes the dump read beyond its end |
| MousePointer.SizeExact | include/VBox/VMMDev.h:476-484 | the computed size is the exact one if and only if the colour mask, or on 32 bits the request, is smaller than 4 GB |
| MousePointer.PixelInside | include/VBox/VMMDev.h:437-458 | every pixel's bit lies in the AND mask and its aligned word in the XOR mask behind, inside the size |
| MousePointer.PixelsDistinct | include/VBox/VMMDev.h:437-458 | different pixels have different bits, and words that do not overlap |
| MousePointer.SizeTight | include/VBox/VMMDev.h:476-484 | the last pixel's word ends where the request does |
| MousePointer.ComputedSizeTaken | src/VBox/Devices/VMMDev/VMMDev.cpp:1108-1180 | the host goes by the shape of a request of the computed size if and only if the pointer is not empty, no side exceeds 8192 and the size is at most the 1 MB the handler (lines 2971-3102) takes of any request |
| MousePointer.ShapeChecked | src/VBox/Devices/VMMDev/VMMDev.cpp:1108-1120 | for any size given the shape check succeeds if and only if no side exceeds 8192 and 44 bytes and the exact masks fit in it |
| MousePointer.RequestTaken | src/VBox/Devices/VMMDev/VMMDev.cpp:1130-1180 | so of all requests for a shape the host goes by exactly those over 48 bytes and up to 1 MB |
| MousePointer.SquareTaken | src/VBox/Devices/VMMDev/VMMDev.cpp:2992-3102 | of square pointers it takes exactly those up to 504 pixels |
| MousePointer.TooLargePointer | src/VBox/Devices/VMMDev/VMMDev.cpp:2992-3102 | the request for 512 by 512 pixels has 1081388 bytes and is refused |

## Left out

- FastCall: waiting for the host, interruption and cancellation of a call are not modelled; a call that is accepted is completed.
- HostRun: quotas on host memory, failing host allocations, profiling, saved states and a guest that changes a request while it is processed are not modelled.
- Service: it is a function of one call, whose reply gives every buffer it hands back in full (one it leaves alone, as it got it); its own state and the real meaning of the shared folder functions stay open, and it is not told whether a buffer came as pages or in one piece.
- ListParm: pages of a no-bounce list are ones the host can lock; its error for others, and its falling back to bouncing for reserved pages, are left out.
- Heap: how VbglR0PhysHeapAlloc finds a block is a parameter, required to give mapped memory that overlaps no block in use; the heap's own block headers are not part of the memory described.
- GuestBufferRead: failures of physical memory access (VERR codes of single pages) are not modelled; missing pages are.
- Requests that carry values only (Close, Flush, SetFileSize, CopyFilePart, UnmapFolder, SetErrorStyle, SetUtf8, SetSymlinks) and their Simple forms: same pattern as QueryFeatures, no buffer.
- QueryVolInfo: same pattern as QueryObjInfo; the offset of its structure depends on how the compiler aligns 64-bit fields.
- RenameWithSrcBuf, ListDir and MapFolderWithBuf: pass the physical address of a heap block on to the forms that are modelled.
- EthPacketDump: how the text is put and what is logged of Ethernet, ARP and IP addresses are left out; with logging off nothing is read.
- Buffer: stands for a context with VBVA set up, so the checks for a missing buffer are left out; rings of 0x7800_0000 bytes and more, which no video memory holds, are not described.
- HwBufferWrite: the host may look at the ring before every chunk; its looking between the three stores of a chunk is covered by the interleavings of the step model.
- FlushProcess: collecting the dirty rectangle, several screens, and a guest that writes indices out of range are left out.
- Weak memory ordering between guest and host processors is not modelled; steps are atomic.
- Opcode tables, status code tables, request size switch, assertion macros and tracing layouts: finite tables without behaviour across functions.
