# Sagiri-guard: verified model of the agent/backend core

Sagiri-guard is a device agent in Go and C and a backend that talks to it over a private binary
protocol. This project models the parts of the two programs that keep state, and proves what they
promise over whole runs.

Five cores are modelled.

1. **Wire protocol and backup transfer.** `Basics`, `Bytes`, `Wire`, `WireLayouts`, `MessageStruct` and `Stream` model the C
   library: payload buffers filled at a moving position, frames on a byte stream, partial and
   interrupted socket calls, and the fixed-size fields that the receiver fills. `FileContent`,
   `Chunking`, `AgentUpload`, `BackupState`, `BackupServer`, `BackupSafety`, `BackupOverwrite`,
   `BackupHistory`, `UploadEndToEnd`, `Download` and `BackupRoundTrip` model the chunk loops, the backend's sessions and
   files, and the versions it records, up to two theorems: the stored file is the source file, and
   what was stored comes back.
2. **File tree.** `Strings` and `LogicalPaths` model how both sides cut paths. `FileTreeModel` turns a
   batch of changes into row writes, `FileTreeService` ties the imperative code to them,
   `FileTreeForest` proves the tree invariant, `FileTreeConvergence` that resending and reordering do
   no harm, and `FileTreeOutcome` what a batch leaves in every row.
3. **Connections.** `Registry` is the C linked list on the heap, `RegistryHistory` what it answers over
   histories of logins and closes. `Lifecycle` interleaves any number of connection threads at the
   granularity of their locks, and `Controller` is the hub and the token cache they share.
   `CommandQueue`, `CommandDelivery`, `CommandSolo` and `CommandOnce` are the durable command queue,
   alone and interleaved.
4. **Hosts file.** `HostsFile` works on the text of the file, `HostsManager` on the manager and the
   `block_website` commands that drive it.
5. **Agent monitors.** `RenamePairing` pairs rename notifications, `RecordWalk` walks the buffer they
   come in, and `Scheduler` starts automatic backups.

Code that works by updating fields is a class with those fields. Each method's postcondition equates the
new state with a step function, and the theorems are about runs of those steps, so the two parts together
speak about the code. What a step does to each part of the state is also said in plain terms, without the
step function, so that the two descriptions check each other.

Several promises hold only under a condition. Each of these is proved as an equivalence:

- a message survives the wire if and only if its texts have no NUL byte and its chunk or done token has
  at most 255 bytes, although the senders accept 1024;
- sending a frame again after a failed send repairs the stream if and only if no byte of it went out;
- the chunks rebuild the source if and only if the last read starts below 2^32; with disconnects of the
  device and failing file writes at any time, and whatever the temp file held before, an upload stores its
  source if and only if the device is authorised at the done frame, the last read starts below 2^32 and
  what was written of the chunks that found it authorised restores the source;
- two uploads share a file if and only if device, second and, up to the two endings, base name agree (a
  request that names slashes only counts as one with an empty base name), and a finished file is safe from
  one more upload if and only if that upload's names do not reach it;
- a download into a new file reproduces the stored file if and only if its offset is 0 or the file is
  empty;
- a file below a root gets the logical path below it if and only if its path spells the root as it is, or
  the system ignores letter case;
- a joined logical path is cut back into the same segments if and only if they are all clean;
- the parent walk rebuilds the path of a file change if and only if its name is its last path segment;
- a change can be swapped with other changes if and only if it is not a directory whose bare name reads
  as a path;
- a removal clears a socket from the registry if and only if at most one device held it, and lookups agree
  with the login history if and only if no closing connection shares its socket between devices;
- a retry sweep empties the queue if and only if every encoding, send and status write succeeds;
- where sweeps keep out of each other's way, commands go out at most once if and only if every write of a
  sent mark succeeds;
- user lines of the hosts file survive every run if and only if none of them ends in a carriage return;
- a flush leaves no expired rename behind if and only if none stands behind an unexpired one.

Where the repository's README and the protocol header disagree on a limit, the header is followed: status
texts may have 4096 bytes (`network/protocol.h:25`).

## Model

| member | source | states |
|---|---|---|
| `Bytes.HtonllIsNetworkOrder` | network/protocol_message.c:7-21 | the 64-bit swap built from two 32-bit swaps leaves in memory exactly the network byte order of its argument |
| `Wire.BuildLogin` | network/protocol_message.c:56-82 | the buffer filled at a moving position is the login payload of the texts cut at their first NUL, and the call is refused exactly when a length is over its limit |
| `Wire.SizeInMemory` | network/protocol_message.c:15-21 | the file size is stored most significant byte first |
| `Wire.BuildFileMeta` | network/protocol_message.c:91-109 | the filled buffer is the file meta payload; refused exactly when the name is too long |
| `Wire.PutSession` | network/protocol_message.c:111-146 | the buffer begins with the two one-byte lengths, the session id and the token, up to the returned position |
| `Wire.BuildFileChunk` | network/protocol_message.c:111-146 | the filled buffer is the chunk payload with the token length cast to one byte; refused exactly when a text or the frame is too long |
| `Wire.BuildFileDone` | network/protocol_message.c:148-171 | the filled buffer is the done payload with the one-byte token length; refused exactly when a text is too long |
| `Wire.BuildAck` | network/protocol_message.c:173-192 | the filled buffer is the ack payload; refused exactly when the text is too long |
| `Wire.Build` | network/protocol_message.c:56-192 | whichever message is sent, the call succeeds exactly when the message is sendable, and then yields its payload |
| `Wire.SendablePayloadFits` | network/protocol_message.c:37-39 | no accepted message exceeds the 1 MiB frame payload |
| `Wire.FittingMessageParses` | network/protocol_message.c:194-302 | every accepted message whose token fits is decoded into the fields that were sent, cut at NULs |
| `Wire.DecodedTokenIsShort` | network/protocol_message.c:254-285 | a decoded chunk or done token never has more than 255 bytes, whatever the payload |
| `Wire.CutRoundTrip` | network/protocol_message.c:111-302 | an accepted message comes back cut at NULs if and only if its token fits one length byte |
| `Wire.RoundTripExactly` | network/protocol_message.c:56-302 | an accepted message is received as sent if and only if it is NUL-free and its chunk or done token has at most 255 bytes |
| `Wire.LongTokenIsLost` | network/protocol_message.c:118-125 | a token of 256 to 1024 bytes is accepted by the sender and does not come back |
| `WireLayouts.ArrivesExactly` | network/protocol_message.c:56-302 | a message is accepted and received as it was sent if and only if its texts are NUL-free and within the limits of the header, with 255 bytes for chunk and done tokens, and its payload is within 1 MiB |
| `WireLayouts.NulsCut` | network/protocol_message.c:56-192 | what follows a NUL in a text argument makes no difference to a call |
| `Wire.ChunkFieldsAreTheLayout` | network/types.go:66-75 | on any payload, either every chunk field is blank or the decoded session, token, offset and length are exact slices and the Go data slice starts where they end |
| `Wire.FieldsWithinLimits` | network/protocol.h:19-25 | no payload at all decodes into a field longer than its fixed-size buffer |
| `WireLayouts.LoginFieldsAreTheLayout` | network/protocol_message.c:224-237 | any login payload decodes to the device and token it begins with, or to nothing |
| `WireLayouts.MetaFieldsAreTheLayout` | network/protocol_message.c:242-253 | any file meta payload decodes to the size and name it begins with, or to nothing |
| `WireLayouts.DoneFieldsAreTheLayout` | network/protocol_message.c:272-285 | any done payload decodes to the session and token it begins with, or to nothing |
| `WireLayouts.StatusFieldsAreTheLayout` | network/protocol_message.c:286-297 | any acknowledgement or error payload of four bytes or more decodes to the code it begins with, and to the text behind it or, where that does not fit, to no text |
| `MessageStruct.ProtocolMessage.Clear` | network/protocol_message.c:198 | after memset every field reads as empty or zero |
| `MessageStruct.ProtocolMessage.Decode` | network/protocol_message.c:194-302 | filling the fixed-size fields in place gives the fields that the value-level decoder gives, for any payload, without leaving an array |
| `MessageStruct.SetText` | network/protocol_message.c:232-235 | a field and its NUL are copied within the buffer and read back as the field up to its first NUL |
| `Stream.SelfDelimiting` | network/protocol_message.c:194-302 | over any complete frames the receiver takes exactly 5 + length bytes each, whatever the payloads hold, and goes on with what follows |
| `Stream.FrameReadyExactly` | network/protocol_message.c:200-223 | the receiver accepts the front of a stream if and only if it is a kind, the length of a payload of at most 1 MiB in network byte order, and that payload in full |
| `Stream.StreamIsItsFrames` | network/protocol_message.c:194-302 | every stream is the frames decoded from it followed by bytes in front of which the receiver fails |
| `Stream.StreamRoundTrip` | network/protocol_message.c:23-302 | the frames of any accepted messages leave no bytes over and give one message each; the list comes back as sent if and only if every message survives |
| `Stream.RetryRepairsOnlyUnstartedFrame` | agent/internal/backup/backup.go:129-135 | sending a frame again after a failure leaves exactly that frame on the stream if and only if the failed send had written nothing |
| `Stream.Socket.SendAll` | network/tcp_core.c:97-113 | success appends all the data, failure a proper prefix; partial and interrupted sends alone never fail |
| `Stream.Socket.SendFrame` | network/protocol_message.c:33-54 | success appends the frame, failure a proper prefix of it; oversized payloads write nothing |
| `Stream.Socket.SendMessage` | network/protocol_message.c:56-192 | a protocol_send call appends exactly the message frame or a proper prefix of it, and succeeds on smooth sends exactly when the message is sendable |
| `Stream.Socket.RecvAll` | network/protocol_message.c:23-31 | takes a prefix of the waiting bytes: all that were asked for under any split of the receives, or fewer when a receive breaks or the stream ends |
| `Stream.Socket.RecvMessage` | network/protocol_message.c:194-302 | success decodes the front frame and consumes exactly its bytes |
| `Stream.Socket.RecvUntilFailure` | network/protocol_server.c:102-105 | receiving until failure yields the frames at the front of the stream in order, and all of them unless one of the receives breaks |
| `Stream.SendMessages` | agent/internal/backup/backup.go:95-151 | success appends the frames of all messages in order; without failing sends it succeeds exactly when all are sendable |
| `Stream.Transmit` | network/protocol_message.c:23-302 | over any schedule of partial and interrupted sends and partial receives, a list of accepted messages arrives decoded, complete and in order |
| `FileContent.RepeatedWrite` | backend/app/controllers/protocol_backup.go:141-156 | writing the same data at the same offset again changes nothing |
| `FileContent.WriteFromStart` | agent/internal/backup/backup.go:204-214 | a write from the start replaces that many bytes and keeps the rest of the old content |
| `Chunking.ChunksRebuildSource` | agent/internal/backup/backup.go:119-144 | the offset-tagged chunks of non-empty reads rebuild the source if and only if the last read starts below 2^32 |
| `Chunking.FourGigabytesAreInRange` | agent/internal/backup/backup.go:119-144 | every source of at most 2^32 bytes meets that condition, however it is read |
| `Chunking.OutOfRangeWritesFallShort` | agent/internal/backup/backup.go:136 | once the last start has wrapped, no chunk reaches the end of the source |
| `Chunking.StutteringWritesAreHarmless` | agent/internal/backup/backup.go:129-135 | delivering chunks more than once in a row gives the same file |
| `Chunking.SlicesRestoreExactly` | backend/app/controllers/protocol_backup.go:141-156 | writes that are slices of a source, in any number and order, make any file that source if and only if the file is not longer, they reach the end where the file does not, and what none of them covers is there already, zeros beyond the file |
| `Chunking.SomeChunksRebuildExactly` | backend/app/controllers/protocol_backup.go:141-156 | any of the chunk writes, whole or broken off part way, in any number and order, make any file the source if and only if the last read starts below 2^32 and they restore it; after a wrap, for files of another length than the source's |
| `Chunking.ChunksOverlayExactly` | backend/app/services/backup_service.go:109-136 | in range the chunks put the source over the front of what the temp file held, which leaves the source if and only if the file was not longer |
| `Chunking.FilledKeepsContent` | agent/internal/backup/backup.go:121-137 | skipping the reads that deliver nothing loses no content |
| `AgentUpload.Attempt` | agent/internal/backup/backup.go:129-135 | one send call appends the frame or a proper prefix of it, and tells when a failure left the stream clean |
| `AgentUpload.SendChunks` | agent/internal/backup/backup.go:119-144 | the loop skips empty reads and sends every other read under the wrapping running offset, each tried at most twice, so that one failing send does not end it; unless a failed send broke a frame the stream holds one frame per read in order |
| `AgentUpload.TryTwice` | agent/internal/backup/backup.go:129-135 | a chunk is tried again after one failure: with at most one failing send it goes out |
| `AgentUpload.SendHead` | agent/internal/backup/backup.go:95-112 | sends the login whenever device and token allow it, then file meta; a failing send is used up exactly by a login that did not go out and by a meta that did not |
| `AgentUpload.UploadFile` | agent/internal/backup/backup.go:82-154 | when no failed send broke a frame, a successful upload has put exactly login, meta, chunk and done frames on the stream |
| `AgentUpload.WritesOfChunkMessages` | agent/internal/backup/backup.go:119-144 | the writes that the chunk messages ask for are the chunk writes of the reads |
| `BackupServer.Server.IsAuthorized` | backend/app/controllers/protocol_controller.go:84-92 | authorised exactly when the id is not empty and a non-empty token is cached |
| `BackupServer.Server.HandleBackupInitUpload` | backend/app/controllers/protocol_backup.go:14-37 | the new state is the init step of the state machine, and the request succeeds exactly when it is accepted |
| `BackupServer.Server.PrepareUpload` | backend/app/services/backup_service.go:87-141 | refuses an empty name or a size below 1, otherwise creates the temp file if missing and records the session |
| `BackupServer.Server.HandleBackupInitDownload` | backend/app/controllers/protocol_backup.go:39-59 | the new state is the download init step, and the request succeeds exactly for an authorised device and an existing file |
| `BackupServer.Server.FindUpload` | backend/app/controllers/protocol_backup.go:117-137 | the checks pass exactly for an authorised device with the id and token of an active upload session |
| `BackupServer.Server.HandleFileChunk` | backend/app/controllers/protocol_backup.go:117-160 | the new state is the chunk step: write at the offset, then advance the session; where opening, seek or write fails, only what was written so far, and no advance |
| `BackupServer.Server.Advance` | backend/app/services/backup_service.go:197-207 | adds to the byte count of that session only |
| `BackupServer.Server.MarkCompleted` | backend/app/services/backup_service.go:219-230 | completes that session only |
| `BackupServer.Server.HandleFileDone` | backend/app/controllers/protocol_backup.go:162-199 | the new state is the done step: complete, rename, record a version, forget the active upload |
| `BackupServer.Server.FinalizeUpload` | backend/app/services/backup_service.go:232-289 | renames the temp file or its fallback over the final name and appends the next version, or fails and changes nothing |
| `BackupServer.Server.NewestVersion` | backend/app/repo/backup_version_repo.go:21-34 | the largest recorded version of the device and logical path, 0 if none |
| `BackupSafety.VersionsAreNumbered` | backend/app/repo/backup_version_repo.go:21-38 | in every reachable state the versions of a device and logical path, in creation order, are 1 to n |
| `BackupSafety.DoneExtendsHistory` | backend/app/services/backup_service.go:268-286 | a done frame keeps every history of versions at 1 to n |
| `BackupSafety.DoneExactly` | backend/app/services/backup_service.go:232-266 | a done frame of an upload session moves its temp file, or else the fallback file, to the final name, changes no other file, ends the session and marks it completed; with neither file it only marks it |
| `BackupSafety.NextNumberCounts` | backend/app/repo/backup_version_repo.go:21-38 | the next number, one more than the largest of the device and logical path, is one more than how many there are |
| `BackupHistory.RowsStandForUploads` | backend/app/services/backup_service.go:87-289 | in a life of the server, whatever events it sees, every row it adds was added by a done frame of an authorised device with id and token of an earlier accepted request, and has the device, file id, logical path or else base name, file name, stored name and size of that request, under the next number of that path |
| `BackupHistory.RowStays` | backend/app/services/backup_service.go:274-285 | and it still says so after everything that follows |
| `BackupSafety.RecordedFilesNeverChange` | backend/app/services/backup_service.go:232-289 | over every run in which new uploads get new ids and names that no active upload or recorded version has, each recorded version stays, each stored name is recorded once and the content under it never changes |
| `BackupSafety.StepKeepsSafe` | backend/app/controllers/protocol_backup.go:117-199 | every such event keeps active uploads on separate files, every recorded file in place and out of reach of the active uploads, and stored names distinct, and adds at most one version |
| `BackupSafety.StartIsSafe` | backend/app/services/backup_service.go:53-81 | a server that starts without active uploads, on recorded versions with distinct, existing files, meets the invariant, whatever other files it finds |
| `BackupSafety.RestartKeepsSafe` | backend/app/services/backup_service.go:53-81 | a restart, which keeps files and versions and forgets sessions and tokens, keeps the invariant |
| `BackupSafety.RecordedFilesSurviveRestarts` | backend/app/services/backup_service.go:53-81 | what was recorded in one life of the server is unchanged after any number of further lives with restarts in between |
| `BackupSafety.LogicalPathIsNotEmpty` | backend/app/services/backup_service.go:94-98 | every accepted upload has a logical path, so a done frame records a version |
| `BackupSafety.VersionsOnlyGrow` | backend/app/services/backup_service.go:274-285 | no event at all takes back or changes a recorded version |
| `BackupSafety.SparedFileNeverChanges` | backend/app/controllers/protocol_backup.go:117-199 | a file that no active upload may touch stays as it is over every run with new ids in which no accepted upload has that file among its names, however the other uploads collide with each other |
| `BackupSafety.FootprintMemberExactly` | backend/app/services/backup_service.go:94-101 | a stored file is among the files of an upload if and only if it was stored for the same device in the same second under that upload's base name, bare or with the ending of a temp or fallback file, where a base name that is a slash counts as empty |
| `BackupSafety.UploadsMeetExactly` | backend/app/services/backup_service.go:94-101 | two uploads share a file name if and only if device and second are equal and one base name is the other, bare or with such an ending, where a slash counts as empty |
| `BackupOverwrite.RecordedFileSurvivesExactly` | backend/app/services/backup_service.go:99-136 | for any file that no active upload may touch, such as a recorded one before or after a restart: after one more accepted upload with a new id, no later run whose other uploads spare the file or repeat this one changes it if and only if it is not stored for the same device under the new upload's stored name, bare or with the ending of its temp or fallback file |
| `BackupOverwrite.StoredNamesReachExactly` | backend/app/services/backup_service.go:94-101 | that condition on stored names holds if and only if the seconds are equal and the base names are, bare or with such an ending, where a slash counts as empty |
| `BackupOverwrite.SlashMeetsDotPart` | backend/app/services/backup_service.go:94-101 | a request for a slash has its temp file where an upload of `.part` in the same second is stored |
| `BackupOverwrite.SameSecondOverwrites` | backend/app/services/backup_service.go:245-263 | a second upload of one name by one device in the same second replaces the file that the first one left and recorded |
| `UploadEndToEnd.IntactMessagesArrive` | backend/app/controllers/protocol_router.go:12-60 | the backend sees intact messages as the events their sender meant, under the device id of the last login |
| `UploadEndToEnd.LooksLikeJWTExactly` | backend/app/controllers/protocol_router.go:62-67 | a token is verified as a JWT exactly when it has two dots |
| `UploadEndToEnd.InitStartsUpload` | backend/app/services/backup_service.go:87-141 | an accepted request with a new id and names no active upload has starts an upload on what its temp file already holds, and answers the length of that as offset, at most the announced size |
| `UploadEndToEnd.InterleavedRun` | backend/app/controllers/protocol_backup.go:117-160 | however other traffic is interleaved, disconnects of the device included, the temp file holds what was written of the upload's own chunks that found the device authorised, in their order |
| `UploadEndToEnd.InterleavedProgress` | backend/app/services/backup_service.go:197-207 | the byte count of the session grows by exactly the own chunks that were written, whatever else happens |
| `UploadEndToEnd.DoneFinishesUpload` | backend/app/controllers/protocol_backup.go:162-199 | the done frame of an authorised device moves the content to the final path, ends the session and records one row with what the request asked for, under the next number of its path; without authorisation it does nothing |
| `UploadEndToEnd.UploadStoresSource` | backend/app/controllers/protocol_backup.go:117-199 | with any disconnects before the transfer connection's accepted login and none of the device after it, for every source and split into non-empty reads, with chunks repeated and other traffic interleaved, a version is recorded, in range of the source and after it what the temp file held beyond it; that is the source if and only if the last read starts below 2^32 and the temp file was not longer |
| `UploadEndToEnd.UploadStoresSourceExactly` | backend/app/controllers/protocol_backup.go:117-199 | whatever disconnects, logins and failing file writes happen meanwhile, the source is stored and a version recorded for it if and only if the device is authorised when the done frame arrives, the last read starts below 2^32, and what was written of the chunks that found the device authorised restores the source from what the temp file held; in any case an authorised done frame stores what those chunks made of it, and another nothing |
| `UploadEndToEnd.ConnectedDeliversAll` | backend/app/controllers/protocol_controller.go:140-141 | when no connection of the device closes after the own login, every own chunk finds the device authorised |
| `UploadEndToEnd.DisconnectDropsFrames` | backend/app/controllers/protocol_controller.go:140-141 | after a disconnect of the device, its chunk and done frames do nothing until the next login |
| `UploadEndToEnd.LoneUploadStoresSource` | agent/internal/backup/backup.go:82-154 | the stream that a clean upload writes, decoded and handled after any quiet traffic since the request, stores the source if and only if the last read starts below 2^32 and the temp file was not longer, empty reads included |
| `UploadEndToEnd.AgentUploadStoresSource` | agent/internal/protocolclient/client.go:13-57 | the agent's upload as it runs: the request's own connection closes and takes the authorisation with it, then the transfer connection logs in and sends its stream, with the same outcome |
| `UploadEndToEnd.UploadWithoutLoginIsDropped` | agent/internal/backup/backup.go:95-102 | when the login frame was not sent the upload runs to its end and the backend stores nothing |
| `Download.SendDownload` | backend/app/controllers/protocol_backup.go:79-114 | success puts exactly meta, the stored bytes from the offset on as chunks, and done on the stream; without failing sends it succeeds exactly when these can be sent |
| `Download.Receiver.ReceiveFile` | agent/internal/backup/backup.go:197-225 | the receive loop's file, position and running offset are those of the frame-by-frame receiver |
| `Download.ReceiveGoesOn` | agent/internal/backup/backup.go:197-225 | over any frames the offset grows by the chunk data received, and position, name and size are those since the last meta frame |
| `Download.ReceiveStops` | agent/internal/backup/backup.go:197-225 | the first done, acknowledgement or error frame decides how the download ends; nothing after it counts and what came before it stays |
| `Download.OtherFramesAreSkipped` | agent/internal/backup/backup.go:197-225 | frames of any other kind make no difference |
| `Download.DownloadPlacement` | agent/internal/backup/backup.go:197-225 | after the done frame the destination holds the sent content from its start, then what the old file held beyond it, and the offset grew by that length |
| `Download.DownloadReproducesExactly` | backend/app/controllers/protocol_backup.go:90-95 | a download into a new file reproduces the stored file if and only if its offset is 0 or the file is empty |
| `BackupRoundTrip.StoredNameIsPlain` | backend/app/services/backup_service.go:143-148 | the stored name of a file leads a download request back to it, whatever name was requested |
| `BackupRoundTrip.StoredNameTells` | backend/app/services/backup_service.go:99 | a stored name tells second and base name apart again |
| `BackupRoundTrip.BaseIsLastPart` | backend/app/services/backup_service.go:94 | the base name is the last part of a path, with or without a slash at its end |
| `BackupRoundTrip.UploadedSourceComesBack` | backend/app/services/backup_service.go:143-289 | after any later traffic whose uploads do not reach the stored name, downloading the recorded version by that name from offset 0 into a new file gives what the chunks made of the temp file: the uploaded source if and only if its last read starts below 2^32 and the temp file was not longer |
| `LogicalPaths.SplitSegments` | agent/internal/service/filetree_sync.go:251-264 | the loop yields the trimmed non-blank parts of the path |
| `LogicalPaths.JoinedPathSplitsBack` | backend/app/services/filetree_service.go:176-192 | the backend cuts the agent's joined path into the agent's segments if and only if every segment is non-empty, trimmed and free of slashes |
| `LogicalPaths.CuttingIsIdempotent` | agent/internal/service/filetree_sync.go:251-264 | segments that the agent cut itself always survive the trip |
| `LogicalPaths.RawSegmentsExactly` | backend/app/repo/filetree_repo.go:265-268 | the segments of a delete by path are the parts of the path without the slashes at its ends |
| `LogicalPaths.DeleteSplitterAgreesExactly` | backend/app/repo/filetree_repo.go:265-272 | the splitter of deletes by path cuts like the one of syncs if and only if the path without its outer slashes is made of clean segments |
| `LogicalPaths.BuildLogicalSegments` | agent/internal/service/filetree_sync.go:203-248 | the base name of the first root above the path and the parts of the relative path from that root; the whole path if there is none |
| `LogicalPaths.UnderRootExactly` | agent/internal/service/filetree_sync.go:224-225 | a path lies under a root exactly when, letter case aside, it begins with the root and ends there or goes on with a separator |
| `LogicalPaths.SegmentsBelowRootExactly` | agent/internal/service/filetree_sync.go:224-243 | a path below a root, letter case aside, gets the root's base name and its own parts below it if and only if it spells the root as it is or the system ignores letter case |
| `LogicalPaths.SegmentsOutsideRoots` | agent/internal/service/filetree_sync.go:246-247 | a path under no root keeps all its parts |
| `LogicalPaths.ConvertLogicalPathToPhysical` | agent/internal/command/handlers.go:226-262 | the parts joined and cleaned below the first root with the right base name; empty if there is none |
| `LogicalPaths.UpUndoesDown` | agent/internal/command/handlers.go:256-257 | a `..` part takes back the part before it, and empty and `.` parts change nothing |
| `LogicalPaths.LogicalPathLeadsBackExactly` | agent/internal/command/handlers.go:226-262 | mapping the logical path of a file below a root back gives its physical path if and only if the first root with that base name is that root |
| `FileTreeModel.KeyStep` | backend/app/services/filetree_service.go:194-197 | a folder key is its parent's key, a slash and its own name |
| `FileTreeService.Repository.UpsertFile` | backend/app/repo/filetree_repo.go:24-40 | insert or update of every column but the delete mark |
| `FileTreeService.Repository.UpsertFolder` | backend/app/repo/filetree_repo.go:42-52 | insert or update of every column but the delete mark |
| `FileTreeService.Repository.UpsertItem` | backend/app/repo/filetree_repo.go:54-67 | insert or update of every column but the delete mark |
| `FileTreeService.Repository.DeleteItem` | backend/app/repo/filetree_repo.go:239-258 | soft-deletes the device's live item of that id with its file and folder rows, or changes nothing |
| `FileTreeService.Repository.SoftDeleteItem` | backend/app/repo/filetree_repo.go:311-341 | marks the item and the linked file and folder rows of the same device |
| `FileTreeService.SplitPath` | backend/app/services/filetree_service.go:176-192 | the cut path, or the fallback name alone |
| `FileTreeService.UpsertFolders` | backend/app/services/filetree_service.go:107-172 | the loop performs exactly the folder and item writes of the prefixes, and hands on the last folder's id |
| `FileTreeService.UpsertPath` | backend/app/services/filetree_service.go:98-174 | performs exactly the row writes of the change; fails exactly for a file without an id, after its folders |
| `FileTreeService.ApplyChanges` | backend/app/services/filetree_service.go:29-59 | performs exactly the row writes of the batch up to the change that stops it |
| `FileTreeForest.WriteKeepsForest` | backend/app/services/filetree_service.go:107-172 | a row write whose parent and linked rows exist keeps the forest |
| `FileTreeForest.BatchWritesAreGrounded` | backend/app/services/filetree_service.go:29-174 | every row write of every batch comes after the rows it refers to |
| `FileTreeForest.EveryRowWriteKeepsForest` | backend/app/services/filetree_service.go:98-174 | after every single row write of every batch, complete or broken off anywhere, each item's parent is absent or an existing folder for its path prefix, and its file or folder row exists |
| `FileTreeForest.ReachableTablesAreForests` | backend/app/services/filetree_service.go:29-174 | so the tables stay a forest over all runs of batches of any devices |
| `FileTreeForest.BuildLogicalPathFromItem` | backend/app/repo/filetree_repo.go:435-468 | on a forest the parent walk ends, with the names from the top of the tree down |
| `FileTreeForest.FolderNamesSpellKey` | backend/app/repo/filetree_repo.go:435-468 | the walk from any folder row spells the path its id was made from |
| `FileTreeForest.WalkRebuildsPathExactly` | backend/app/repo/filetree_repo.go:435-468 | as long as a change's file row stands, the walk returns the change's normalised path if and only if its name is its last segment |
| `FileTreeForest.DeleteByPathFindsFolderExactly` | backend/app/repo/filetree_repo.go:265-272 | the folder id that a delete by path computes is the one that syncing the path created if and only if the path without its outer slashes is made of clean segments |
| `FileTreeForest.FoldersAreNeverDeleted` | backend/app/repo/filetree_repo.go:239-258 | no row write of a batch marks a folder as deleted |
| `FileTreeForest.BatchKeepsFolder` | backend/app/repo/filetree_repo.go:239-258 | a live folder stays live through any row writes of batches |
| `FileTreeConvergence.SameWritesSameTables` | backend/app/repo/filetree_repo.go:24-67 | row writes that do not clash act as a set: any two lists with the same writes leave the same tables |
| `FileTreeConvergence.KeyDeterminesPrefix` | backend/app/services/filetree_service.go:194-197 | the key of a folder determines the path prefix it was made from, unless a directory name reads as a path |
| `FileTreeConvergence.BatchesConverge` | backend/app/services/filetree_service.go:29-59 | batches with the same changes in any order, with any repetitions, leave the same rows and delete marks |
| `FileTreeConvergence.PermutedBatchesConverge` | backend/app/services/filetree_service.go:29-59 | in particular any permutation of a batch |
| `FileTreeConvergence.ResendingConverges` | backend/app/services/filetree_service.go:29-59 | sending a batch again after it broke off at any row write, or completed, leaves what one application leaves |
| `FileTreeConvergence.BatchesKeepPlain` | backend/app/services/filetree_service.go:29-174 | batches of devices without the separator of folder keys in their ids keep all rows so |
| `FileTreeConvergence.ChangeStands` | backend/app/services/filetree_service.go:107-172 | at the end of its batch the row of a file change stands as the change wrote it |
| `FileTreeOutcome.DeletionStands` | backend/app/services/filetree_service.go:31-52 | after a batch an item row of an agent id is marked as deleted if and only if it was before, or belongs to the device and the batch reports its deletion |
| `FileTreeOutcome.FileDeletionStands` | backend/app/repo/filetree_repo.go:311-341 | so is its file row, provided the item row was live and of the same device |
| `FileTreeOutcome.FileStands` | backend/app/services/filetree_service.go:107-153 | at the end of its batch the file and item rows of a file change have every column as the change says, and its item hangs below the folder of its path |
| `FileTreeOutcome.FolderStands` | backend/app/services/filetree_service.go:154-171 | at the end of a batch every folder on the paths of its changes has its rows, named and placed as the path says, whichever change wrote them |
| `FileTreeOutcome.OtherRowsStand` | backend/app/services/filetree_service.go:29-59 | rows of ids that the batch does not report as files keep all columns but, perhaps, the delete mark |
| `FileTreeOutcome.BadChangeStopsBatch` | backend/app/services/filetree_service.go:111-119 | a file change without an id stops its batch: nothing after it has any effect |
| `FileTreeConvergence.BatchPathsAreRebuiltExactly` | backend/app/repo/filetree_repo.go:435-468 | after a batch of well-formed changes on any reachable tables, the walk from each of its files returns the normalised path if and only if the change's name is its last path segment |
| `FileTreeConvergence.DisguiseShowsTheOrder` | backend/app/services/filetree_service.go:176-197 | a directory without path segments whose name reads as a path leaves different rows depending on the order |
| `FileTreeConvergence.OrderIsIrrelevantExactly` | backend/app/services/filetree_service.go:176-197 | a change can be swapped with every plain change of another file, on every forest, if and only if it is not such a directory |
| `Registry.DeviceRegistry.RegistrySet` | network/protocol_server.c:25-48 | updates the first entry of the id in place or pushes a new one to the front of the heap list; empty ids and invalid sockets change nothing |
| `Registry.DeviceRegistry.RegistryRemoveFd` | network/protocol_server.c:50-66 | unlinks exactly the first entry with the socket and keeps the rest in order |
| `Registry.DeviceRegistry.RegistryGet` | network/protocol_server.c:68-80 | the socket of the first entry of the id, or the invalid socket |
| `Registry.FirstSocketAt` | network/protocol_server.c:50-66 | removal takes out the first entry with the socket, at its position |
| `RegistryHistory.KeysAreEqualExactly` | network/protocol_server.c:25-80 | ids are told apart by as many characters as an entry stores |
| `RegistryHistory.SetChangesOnlyItsId` | network/protocol_server.c:25-48 | a login changes what is found under its own id only |
| `RegistryHistory.SetKeepsUniqueIds` | network/protocol_server.c:25-48 | a login keeps ids unique |
| `RegistryHistory.RemoveIsCompleteExactly` | network/protocol_server.c:50-66 | no entry keeps the removed socket if and only if at most one had it |
| `RegistryHistory.IdsStayUnique` | network/protocol_server.c:25-66 | ids are unique after every history |
| `RegistryHistory.LiveLoginIsCurrent` | network/protocol_server.c:25-80 | the reference answer is the socket of the latest login of the id whose socket has not closed since |
| `RegistryHistory.CurrentHasALiveLogin` | network/protocol_server.c:25-80 | and where the reference answer is a socket, such a login exists |
| `RegistryHistory.RegistryTellsExactly` | network/protocol_server.c:25-80 | after every step each lookup agrees with the login history if and only if no closing connection shares its socket between two devices |
| `RegistryHistory.RegistryRefinesMap` | network/protocol_server.c:25-80 | when every connection logs in as one device, each lookup after any run returns the latest login's socket, or none once it closed |
| `RegistryHistory.SharedConnectionStaysRegistered` | network/protocol_server.c:50-66 | two logins over one connection leave a closed socket registered |
| `RegistryHistory.TakeFrame` | network/protocol_server.c:107-117 | a frame without an id is passed on under the last one; a login with an id registers it |
| `RegistryHistory.ServeConnection` | network/protocol_server.c:92-134 | a whole connection delivers each frame under the last id it gave, registers its logins, and takes its socket out at the end |
| `RegistryHistory.DeliveredExactly` | network/protocol_server.c:107-121 | every frame is delivered under the id of the latest frame so far that carried one |
| `RegistryHistory.LoginsAreRegistered` | network/protocol_server.c:107-117 | while a connection is served, every device that logged in over it is found on its socket |
| `RegistryHistory.OthersAreKept` | network/protocol_server.c:107-117 | and no other device is found differently from before |
| `Lifecycle.EntriesNameOpenConnections` | network/protocol_server.c:92-134 | in every state of any interleaving of connections, each registry and hub entry names an open connection of that device that has not finished its own removal there |
| `Lifecycle.StepKeepsRegistry` | network/protocol_server.c:25-66 | every lock-protected step keeps that for the registry |
| `Lifecycle.StepKeepsHub` | backend/app/socket/hub.go:21-33 | every lock-protected step keeps that for the hub |
| `Lifecycle.RegistryRemovalIsItsOwn` | network/protocol_server.c:125-126 | a connection's registry removal erases what names its socket and nothing else |
| `Lifecycle.RegisteredExactly` | network/protocol_server.c:25-66 | over any interleaving a device is found on a socket if and only if a step registered it there and since then no step registered it again or took that socket out |
| `Lifecycle.HubRemovalIsItsOwn` | backend/app/socket/hub.go:27-33 | a connection's hub removal erases what names its socket and nothing else |
| `Lifecycle.JoinedExactly` | backend/app/socket/hub.go:21-33 | the same for the hub |
| `Lifecycle.OlderDisconnectsEvictNothing` | network/protocol_server.c:92-134 | a registered connection stays the registered one through any interleaving until it leaves itself or is replaced |
| `Lifecycle.OlderDisconnectsKeepHub` | backend/app/socket/hub.go:21-33 | the same for the hub |
| `Lifecycle.OnlineMeansConnected` | backend/app/socket/hub.go:35-43 | a device that counts as online has an open connection |
| `Lifecycle.AuthorizedExactly` | backend/app/controllers/protocol_controller.go:84-92 | over any interleaving a device is authorised if and only if its id is not empty and some step granted it a token that no disconnect of a connection of that device dropped since |
| `Controller.Hub.Register` | backend/app/socket/hub.go:21-25 | replaces the entry of that device only |
| `Controller.Hub.Unregister` | backend/app/socket/hub.go:27-33 | removes the entry only if it belongs to that connection |
| `Controller.Hub.IsOnline` | backend/app/socket/hub.go:35-43 | online exactly when the registry or the hub has the device |
| `Controller.OnlineExactly` | backend/app/socket/hub.go:35-43 | a device counts as online if and only if a registration or a joining of it stands |
| `Controller.Hub.Send` | backend/app/socket/hub.go:66-86 | the registered socket if the write there succeeds, else the hub's if that write does, else none, for ids of any length |
| `Controller.SendGoesExactly` | backend/app/socket/hub.go:66-86 | after any interleaving a send goes to the socket of the latest registration that stands if there is one and the write succeeds, else to that of the latest joining that stands likewise, else nowhere |
| `Controller.SendReachesTheDevice` | backend/app/socket/hub.go:66-86 | whichever way a send goes, at that moment the socket belongs to an open connection of the device, or of the one whose id is the part of an overlong id that the registry compares |
| `Controller.ProtocolController.IsAuthorized` | backend/app/controllers/protocol_controller.go:84-92 | answers the state machine's authorisation |
| `Controller.ProtocolController.HandleLoginFrame` | backend/app/controllers/protocol_router.go:18-48 | cache the accepted token, then join the hub: the lock steps of the state machine one after the other |
| `Controller.LoginTakesEffect` | backend/app/controllers/protocol_router.go:18-51 | a login frame taken to its end has joined the hub, registered the device it names, and cached an accepted token |
| `Controller.ProtocolController.CacheToken` | backend/app/controllers/protocol_auth.go:39-45 | caches the token under the requested id and under the frame's own in one lock step |
| `Controller.CredentialsTakeEffect` | backend/app/controllers/protocol_auth.go:14-48 | accepted credentials cache the token for the requested id and the frame's own, and for no other |
| `Controller.ProtocolController.HandleDisconnect` | backend/app/controllers/protocol_controller.go:127-152 | off the hub, then drop the token: the closing lock steps of the state machine |
| `Controller.ClosingTakesEffect` | network/protocol_server.c:122-134 | a connection that ends, taken to its end, is gone, nothing finds its socket, everything on other sockets is still found, and its device's token is dropped |
| `CommandQueue.QueueIsExact` | backend/app/repo/agent_command_repo.go:42-52 | the listing has exactly the pending and failed rows of the device, in increasing id order |
| `CommandQueue.CommandRepository.Create` | backend/app/repo/agent_command_repo.go:17-19 | appends one row |
| `CommandQueue.CommandRepository.UpdateStatus` | backend/app/repo/agent_command_repo.go:22-29 | changes status and error of that row only |
| `CommandQueue.CommandRepository.MarkSent` | backend/app/repo/agent_command_repo.go:32-39 | marks that row only |
| `CommandQueue.CommandRepository.ListByDevice` | backend/app/repo/agent_command_repo.go:42-52 | lists the queue of the device |
| `CommandQueue.CommandRepository.RetryOne` | backend/app/controllers/protocol_controller.go:104-123 | one turn settles one row and sends the row's own envelope exactly when it encodes and the send succeeds |
| `CommandQueue.RetryPendingCommands` | backend/app/controllers/protocol_controller.go:95-124 | a sweep run alone sends, in increasing id order, exactly the encodable queued commands before the first failed send, settles the rows up to it one by one and touches no other row |
| `CommandQueue.SweepInPlainTerms` | backend/app/controllers/protocol_controller.go:95-124 | a sweep run alone takes the pending and failed rows of its device in ascending order, marks each as sent or failed, sends the row's own device, command, kind and payload for each valid one, ends at the first valid one that cannot be sent, and leaves all other rows alone |
| `CommandQueue.SweepEmptiesExactly` | backend/app/controllers/protocol_controller.go:99-123 | it empties the device's queue if and only if every encoding, send and status write succeeds |
| `CommandQueue.SweepLeavesOtherQueues` | backend/app/controllers/protocol_controller.go:99-123 | it leaves the queues of other devices as they are |
| `CommandQueue.AdminSendCommand` | backend/app/controllers/protocol_admin.go:24-54 | queues the row, and what goes out at once carries that row's device, command, kind and payload |
| `CommandDelivery.RunsAreFaithful` | backend/app/controllers/protocol_controller.go:95-124 | under any interleaving every sent row, every pending mark and every delivery stands for a successful send of the row's own envelope |
| `CommandDelivery.NoCommandLost` | backend/app/controllers/protocol_admin.go:24-54 | a row whose envelope was never handed over stays listed for the next sweep of its device |
| `CommandDelivery.CommandCanGoOutTwice` | backend/app/controllers/protocol_controller.go:99-123 | a sweep that read the queue before a send was marked delivers the same command again |
| `CommandSolo.SweepAloneIsTheLoop` | backend/app/controllers/protocol_controller.go:95-124 | a sweep of the interleaved machine left alone leaves the rows and sends the envelopes of the loop |
| `CommandSolo.AdminAlone` | backend/app/controllers/protocol_admin.go:24-54 | an admin send of the interleaved machine left alone leaves the row and sends the envelope of the handler |
| `CommandOnce.RunKeepsHeld` | backend/app/controllers/protocol_controller.go:95-124 | while sweeps begin only when no thread holds a row of their device, every row is in at most one hand and not yet marked as sent |
| `CommandOnce.RunKeepsOnce` | backend/app/controllers/protocol_controller.go:95-124 | in such a run with every mark written, what was handed over is marked or about to be, and nothing was handed over twice |
| `CommandOnce.LostRowGoesOutAgain` | backend/app/controllers/protocol_controller.go:104-123 | a row whose mark was lost can always be sent again by a later sweep |
| `CommandOnce.AtMostOnceExactly` | backend/app/controllers/protocol_controller.go:95-124 | when sweeps begin only while no thread holds a row of their device, every write of a sent mark succeeded if and only if no such continuation ever hands a command over twice |
| `HostsFile.ReadsWhatWasWritten` | agent/internal/firewall/hosts.go:153-199 | reading back written lines gives them cut at line breaks and each less one carriage return at its end |
| `HostsFile.ReadsUnfinishedLine` | agent/internal/firewall/hosts.go:153-169 | a last line without a line break is read all the same |
| `HostsFile.LowerIsUnmarked` | agent/internal/firewall/hosts.go:14-18 | text without capital letters cannot contain a marker |
| `HostsFile.BlockVanishes` | agent/internal/firewall/hosts.go:202-219 | a written block is stripped again without a trace, whatever its domains are |
| `HostsFile.RewriteKeepsUsers` | agent/internal/firewall/hosts.go:113-140 | after a rewrite the lines outside the block are those before it, less a carriage return each |
| `HostsFile.RemoveBlockSection` | agent/internal/firewall/hosts.go:202-219 | the loop keeps exactly the lines outside block sections, markers dropped |
| `HostsFile.StripIsOutside` | agent/internal/firewall/hosts.go:202-219 | what stripping leaves are exactly the lines that are no marker and whose every earlier start marker has an end marker after it |
| `HostsFile.WriteHostsFile` | agent/internal/firewall/hosts.go:187-193 | the loop writes every line with a line break |
| `HostsManager.UserLinesSurviveExactly` | agent/internal/firewall/hosts.go:41-150 | the lines outside the block stay the same through every run of calls if and only if none of them ends in a carriage return |
| `HostsManager.FileAfterCommand` | agent/internal/command/handlers.go:304-383 | after a sync, apply or remove, whatever came before, the file is the original lines outside the block, then the block of exactly the domains that the enabled rules of this command pick, each once, or no block if it switches blocking off or they pick none |
| `HostsManager.NormalExactly` | agent/internal/firewall/hosts.go:52-56 | a domain is kept without the blanks around it and with its letters in lower case |
| `HostsManager.DomainsExactly` | agent/internal/firewall/hosts.go:52-92 | after any calls a domain is on the list if and only if some call put it there and none since took it off |
| `HostsManager.FileShowsDomains` | agent/internal/firewall/hosts.go:41-150 | after any calls the file is untouched until blocking is first switched, and then has the original lines outside the block and, while blocking is on, the block of the present list |
| `HostsManager.GeneratedIsExact` | agent/internal/firewall/hosts.go:127-133 | a block has the lines of its domains and no others, whatever the order |
| `HostsManager.BlockIsExact` | agent/internal/firewall/hosts.go:124-135 | a block begins and ends with its markers and has exactly the lines of its domains between them |
| `HostsManager.BlockLines` | agent/internal/firewall/hosts.go:124-135 | walking the map yields the block of all domains in some order, nothing for no domains |
| `HostsManager.Manager.ApplyBlocks` | agent/internal/firewall/hosts.go:113-140 | the file becomes its lines outside the block followed by the new block |
| `HostsManager.Manager.RemoveBlocks` | agent/internal/firewall/hosts.go:143-150 | the file becomes its lines outside the block |
| `HostsManager.Manager.SetEnabled` | agent/internal/firewall/hosts.go:41-49 | switching is the switch step of the state machine |
| `HostsManager.Manager.AddDomain` | agent/internal/firewall/hosts.go:52-64 | adds the trimmed lower-case domain and rewrites if enabled, walking exactly the new domains; an empty domain is an error |
| `HostsManager.Manager.RemoveDomain` | agent/internal/firewall/hosts.go:67-76 | removes the trimmed lower-case domain and rewrites if enabled, walking exactly the remaining domains |
| `HostsManager.Manager.SetDomains` | agent/internal/firewall/hosts.go:79-92 | replaces the domains by the trimmed lower-case non-empty entries and rewrites if enabled |
| `HostsManager.CollectDomains` | agent/internal/command/handlers.go:331-352 | exactly the domains that enabled rules pick, by their category or by themselves |
| `HostsManager.Manager.HandleOnce` | agent/internal/command/handlers.go:304-383 | succeeds exactly for a recognised action, and then makes the calls that the command stands for; otherwise nothing changes |
| `RenamePairing.Watcher.FlushExpiredRenames` | agent/internal/monitor/file_monitor.go:327-344 | moves out exactly the expired entries at the front of the queue, in order |
| `RenamePairing.Watcher.DispatchAction` | agent/internal/monitor/file_monitor.go:293-325 | one notification queues an old name, pairs the oldest one, or emits its plain event |
| `RenamePairing.Watcher.HandleAll` | agent/internal/monitor/file_monitor.go:279-289 | the watcher flushes before every notification |
| `RenamePairing.RenamesAreConserved` | agent/internal/monitor/file_monitor.go:293-344 | the k-th event with an old path stands for the k-th rename-old notification: a rename or move within the time limit, by directory, or a move-out after it; the queue holds exactly the rest in order |
| `RenamePairing.EmittedExactly` | agent/internal/monitor/file_monitor.go:293-344 | after any notifications the next one first moves out exactly the old names that waited too long at the front; then an old name emits nothing, a new name a rename or move from the oldest one still waiting or, if none is, a creation, and every other one its own kind of event |
| `RenamePairing.FlushIsCompleteExactly` | agent/internal/monitor/file_monitor.go:327-344 | no expired entry survives a flush if and only if none stands behind an unexpired one |
| `RenamePairing.NoneWaitsTooLong` | agent/internal/monitor/file_monitor.go:327-344 | where time never goes back, no entry older than the limit is left waiting after any notification |
| `RecordWalk.WalkRecords` | agent/internal/monitor/file_monitor.go:263-289 | the loop yields the records of the walk and tells when a jump leaves the buffer |
| `RecordWalk.WalkFollowsJumps` | agent/internal/monitor/file_monitor.go:263-289 | on any buffer the walk yields the records along its jumps, up to the one with jump 0 or to where no whole record is, with a crash exactly past the end |
| `RecordWalk.WalkInvertsLayout` | agent/internal/monitor/file_monitor.go:263-289 | a buffer of records with any names and padding is walked record by record to its end without leaving it |
| `Scheduler.BackupState.SetBackupEnabled` | agent/internal/service/service.go:104-113 | sets the switch only |
| `Scheduler.BackupState.ScheduleBackup` | agent/internal/service/service.go:122-138 | starts exactly when the step does: switched on, past the cooldown and not in flight |
| `Scheduler.BackupState.FinishBackup` | agent/internal/service/service.go:141-146 | takes the path out of flight and notes the time |
| `Scheduler.RequestStartsExactly` | agent/internal/service/service.go:122-138 | a request starts a backup if and only if backups are on, every started backup of the path has ended, and the last end is at least the cooldown ago |
| `Scheduler.RequestStartsFromHistory` | agent/internal/service/service.go:122-146 | in terms of the events alone: a request starts a backup if and only if backups are on, none of the path is running, and the last one ended at least the cooldown ago |
| `Scheduler.BackupsAlternate` | agent/internal/service/service.go:122-157 | starts and ends of a path alternate, each start at least the cooldown after the end before it |
| `Scheduler.WindowBoundsStarts` | agent/internal/service/service.go:97-138 | any window of length T sees at most T / cooldown + 1 starts of one path, over every run in which time does not go back |

## Left out

- Sockets, threads and calls between Go and C are replaced by byte streams with plans for the kernel's answers, and by interleaved steps. The second close of a connection's socket and server teardown are not modelled.
- A frame is sent or received as a whole by one thread; two threads writing to one socket at the same time are not modelled.
- JSON: requests arrive decoded, and the agent's top-level fields of `backup_download_start` against the backend's `data` envelope are not modelled, so the download begins once its request is accepted.
- SQL and GORM: tables are maps or lists of rows, an upsert is insert-or-update on the key that leaves the delete mark, and timestamps are not kept. Database failures appear only as failing status writes of the command queue.
- Credentials, token signing and password hashing: their verdicts and results are inputs. Session ids and tokens are inputs; where they must be new, the theorem says so.
- Folder ids are the hashed key itself, since the name-based UUID (version 5, section 5.5 of RFC 9562) is taken as injective, and agent file ids as disjoint from them.
- Memory allocation failures of the C code are not modelled.
- The host of the C code is little-endian; on a big-endian host the byte swaps are identities.
- BackupServer.Server.HandleBackupInitDownload: a request named `.`, `..` or `/` finds a directory, which the program accepts and the model refuses.
- BackupServer.Server.HandleFileChunk: how far a failing write came is an input, and files are removed only by renames.
- BackupState.Path: device directories are names, so a device id with path separators is not followed into other directories.
- BackupSafety.StepKeepsSafe: uploads whose names collide with an active upload or a recorded file are the subject of BackupOverwrite.RecordedFileSurvivesExactly and BackupSafety.SparedFileNeverChanges instead.
- UploadEndToEnd.UploadStoresSourceExactly: once the last read starts at or beyond 2^32, a temp file that already had exactly the source's length is left open.
- UploadEndToEnd.UploadStoresSource: file reads do not fail, other traffic does not use the upload's session id with its token, and no other upload has one of its file names.
- FileTreeService.ApplyChanges: does not model database errors, hence not the deletion by logical path that is tried only after one; content types of a change are not stored.
- FileTreeForest.WalkRebuildsPathExactly: device ids have no `|`, the character that ends the device part of a folder key.
- FileTreeForest.DeleteByPathFindsFolderExactly: a path without any segment is synced under the change's bare name, which a delete by path does not know.
- LogicalPaths.BuildLogicalSegments: monitor roots and paths are absolute and clean, without `.` or `..` parts, and no root is a whole volume; lower-casing covers ASCII letters only.
- LogicalPaths.ConvertLogicalPathToPhysical: on Windows, segments do not name volumes.
- LogicalPaths.SplitSegments: the backend's separator is the slash, as on the systems it runs on.
- Lifecycle.EntriesNameOpenConnections: each connection carries one device id in its frames, since the registry removes only one entry per socket; the steps of one frame run in the handler's order. "Authorised while any connection of the device is open" does not hold and is not claimed: any closing connection drops the device's token.
- Controller.SendReachesTheDevice: speaks of the moment of the lookup; the socket may close before the bytes are written.
- CommandQueue.RetryPendingCommands: whether a payload encodes is an input, and error texts are reduced to which step failed.
- CommandOnce.AtMostOnceExactly: that sweeps begin apart from other threads is a condition, since the program lets them overlap; CommandDelivery.CommandCanGoOutTwice shows what then happens.
- HostsFile.ReadsWhatWasWritten: the scanner's limit on the length of a line is not modelled, and reading and writing succeed; the backup copy of the file is left out.
- HostsManager.Manager.HandleOnce: the table of category domains is an input.
- RenamePairing.Watcher.EmitEvent: events dropped from a full channel and the rows stored for events are not modelled; conservation is about emitted events.
- RecordWalk.WalkRecords: names stay in UTF-16 bytes, and a jump past the end of the buffer, where the program would panic, ends the walk with a mark.
- Scheduler.BackupState.ScheduleBackup: waiting for a stable file and the backup itself happen between start and end and are not modelled here.
- The file tree sync loop on the agent, tree queries and paging, content types, user and device administration, terminal interface, configuration, logging, system queries, privilege handling, reconnect backoff, acknowledgement size limits, the stream-command manager and the Linux monitor: nothing there would add a hard property.
