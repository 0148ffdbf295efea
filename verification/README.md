# Verification of pySim's core and of the tools around it

This project models the parts of the repository that carry state or arithmetic worth a proof, and proves what they
are there for:

- **File selection.** File objects with mutable parents and children (`CardFiles`), the tree they form as a value
  (`FileTree`), the hop list between two files (`SelectPaths`, `BuildSelectPath`), the names one can select
  (`Selectables`, `Names`, `SelectedEf`, `EfBesideApp`), the card as a second state machine that may refuse any SELECT (`CardSelect`), the
  program's notion of what is selected on each logical channel (`RuntimeChannel`, `RuntimeChannels`, `ClaBytes`), what
  a blind SELECT of an unlisted identifier reaches (`Probing`, `ProbeSibling`), and the shell's recursive walk with its
  counters (`WalkTrace`, `ShellWalk`).
- **OTA secured packets** (`OtaSms`, `OtaResponse`) and **SMS TPDUs** (`SmsTpdu`).
- **Card transfers**: chunked READ and UPDATE BINARY with write elision (`BinaryTransfer`), fragmented SET DATA and
  RETRIEVE DATA (`DataObjects`), each against a card, with `ApduLength` for what one command carries.
- **Codecs and check digits**: BER-TLV headers and the AID walkers (`BerTlv`), OBJECT IDENTIFIER (`ObjectIdentifier`),
  Java Card load files (`LoadFile`), EID check digits (`Eid`).
- **The SM-DP+ server**: certificate chains (`Certificates`), what a log of a run must look like (`SessionLog`), and
  the handlers as steps over the session store (`SmDpp`).

`Bytes`, `Text` and `Wrappers` hold what several modules share. Code of the source that updates fields or loops is a
class or a method here, proved against a function on values; the lemmas then state what those functions mean.
`dafny verify dfyconfig.toml` checks everything.

Some results are about where the code does less than one might expect, each with the exact condition and an input:

- selecting a file identifier that is not listed leaves the program and the card on different files exactly if a DF
  beside the current directory has it and the program can record it (`RuntimeChannel.RuntimeLchan.Select`,
  `Probing.ProbeAnswers`; `ProbeSibling.SelectGsmFromTelecom`);
- with an EF selected, `select` and `get_file_by_name` take `.` and `..`, some of the EF's own identifiers, and in the MF
  the identifiers of applications that a child of the MF carries, too, for different files
  (`SelectedEf.SelectedEfAgrees`; `EfBesideApp.EfsMisled`);
- an address object gives other bytes when it is written again (`SmsTpdu.WritingTwice`, `SmsTpdu.OneDigitWrittenTwice`);
- stripping a TLV whose tag and tag length disagree (`BerTlv.OneByteTagStrips`, `BerTlv.TwoByteTagStrips`,
  `BerTlv.HeadersMisread`), and looking for the DF name in a template with a two-byte length
  (`BerTlv.TwoByteNameIsFound`, `BerTlv.HiddenDfName`);
- EIDs with a leading zero (`Eid.ComputeKeepsIdentifier`, `Eid.ZerosAreLost`);
- class bytes with bit 0x10 set (`ClaBytes.StampResolves`, `ClaBytes.StampedButNotReadBack`).

Conventions: an exception is an `Err`, `None` or an outcome of a datatype. A card is *steady* if it obeys every command
its contents allow; otherwise it may refuse any command at any time. A *loyal* card may refuse a SELECT, but not of a
file it has let one select before, nor of what is above that. A channel is *reliable* or *loyal* if its card is and
commands for it can be built. In `Names`, a file of the tree is *present* if the card has it. A name that is an empty
string counts as no name, as it does in the source.

## Model

| member | source | states |
|---|---|---|
| `CardFiles.CardFile.constructor` | pysim/pySim/filesystem.py:61-91 | identifiers are kept in lower case; only an MF is its own parent; a new file object is a forest by itself |
| `CardFiles.CardFile.AddFile` | pysim/pySim/filesystem.py:357-395 | a child is attached exactly if its FID is four hex digits, neither name nor FID is reserved and it clashes with no child; which error is raised otherwise follows the order of these checks; a duplicate is ignored only on request; a child not attached before joins the forest of its directory with whatever is below it, one that another directory lists is listed twice and that directory is in no forest any more |
| `CardFiles.EligibleMeans` | pysim/pySim/filesystem.py:365-372 | a child must have an identifier of four hex digits other than 3f00 and none of the reserved names |
| `CardFiles.CardFile.AddApplicationDf` | pysim/pySim/filesystem.py:466-473 | an ADF is registered exactly if its AID is new; one not attached before joins the forest |
| `CardFiles.CardFile.Attach` | pysim/pySim/filesystem.py:384-385 | the two assignments of `add_file` keep a forest |
| `CardFiles.CardFile.Register` | pysim/pySim/filesystem.py:472-473 | the two assignments of `add_application_df` keep a forest |
| `FileTree.RootedWhen` | pysim/pySim/filesystem.py:357-395 | file objects are below one MF exactly if they are a forest in which each has its parent, one is an MF, and no two are the same file |
| `FileTree.SnapshotIsTree` | pysim/pySim/filesystem.py:357-395 | whatever was attached below one MF is a tree in the sense of all later theorems |
| `FileTree.Tree.FqPath` | pysim/pySim/filesystem.py:128-136 | the list of ancestors starts at the MF and ends at the file |
| `BuildSelectPath.GetMf` | pysim/pySim/filesystem.py:168-176 | climbing parents ends at the one MF |
| `BuildSelectPath.ClipPath` | pysim/pySim/filesystem.py:144-148 | keeps the path from its last ADF on |
| `BuildSelectPath.FindCommon` | pysim/pySim/filesystem.py:159-161 | the inner loop finds the first place of a file in the target's list, its end aside, or that there is none |
| `BuildSelectPath.FirstMatchIsMeet` | pysim/pySim/filesystem.py:157-165 | the first match of the two ancestor lists is the deepest directory common to both, so joining there gives the hops up to it and down from it |
| `BuildSelectPath.JoinLists` | pysim/pySim/filesystem.py:155-166 | the nested loops find the first match, and None means there is none |
| `BuildSelectPath.BuildSelectPathTo` | pysim/pySim/filesystem.py:138-166 | never None for two files below one MF; the result is the path the lemmas of `SelectPaths` are about |
| `SelectPaths.MeetIsDeepest` | pysim/pySim/filesystem.py:157-165 | the turning point is the deepest file that is the start or above it and properly above the target |
| `SelectPaths.SelectPathEnds` | pysim/pySim/filesystem.py:138-166 | the path is never empty, ends at the target and stays at or above its two ends |
| `SelectPaths.SelectPathIsLegal` | pysim/pySim/filesystem.py:138-166 | every hop is in the scope of a SELECT of section 8.4.1 of ETSI TS 102 221 from where the previous hop led |
| `SelectPaths.HopCount` | pysim/pySim/filesystem.py:138-166 | before clipping there are exactly the hops up to the deepest common directory and down from it |
| `SelectPaths.ClipIsTail` | pysim/pySim/filesystem.py:144-148 | clipping drops a front part only, and what is left has an ADF at most at its start |
| `Selectables.TableEntry` | pysim/pySim/filesystem.py:178-235 | every selectable identifier denotes the file itself, one above it, the MF, an application, or one its directory lists |
| `Selectables.TableEntryInTree` | pysim/pySim/filesystem.py:212-235 | whatever is selectable is a file of the tree |
| `Selectables.ListedAreChildren` | pysim/pySim/filesystem.py:565-581 | a directory lists its children, an EF the other children of its directory |
| `Selectables.ChildByName` | pysim/pySim/filesystem.py:407-423 | a child is selectable by its name; from the MF only if no application overrides it |
| `Selectables.AppByName` | pysim/pySim/filesystem.py:479-501 | an application is selectable by its name from the MF |
| `Selectables.SelfByName` | pysim/pySim/filesystem.py:188-195 | a directory is selectable by its own name unless something else carries it |
| `Selectables.MfByName` | pysim/pySim/filesystem.py:229-235 | `MF` leads to the MF from every file, because no child can carry that name |
| `Names.SplitJoins` | pysim/pySim/runtime.py:443-447 | splitting a slash path loses nothing |
| `Names.JoinSplits` | pysim/pySim/runtime.py:443-447 | and there is one way only to split a path, at its slashes |
| `Names.AbsoluteElements` | pysim/pySim/runtime.py:443-447 | the elements of `/` and a path are `MF` and the parts of the path |
| `Names.RelativeElements` | pysim/pySim/runtime.py:443-447 | the elements of any other name or path join to it |
| `Names.AbsolutePath` | pysim/pySim/runtime.py:268-294 | from every file, both ways of following a path with a slash in front come to where the rest leads from the MF |
| `Names.NormIsLowerCase` | pysim/pySim/runtime.py:460-461 | an identifier is looked up in the one lower-case spelling of its bytes, any other name as it is |
| `Names.ResolutionAgrees` | pysim/pySim/runtime.py:260-294 | for elements that are not upper-case hex, element-by-element selection arrives at a file exactly if the pure lookup finds that file and the card has all of the way there |
| `SelectedEf.SelectedEfAgrees` | pysim/pySim/filesystem.py:565-581 | with an EF selected, an identifier leads to the same file as from its directory if and only if: for an application's identifier and an EF in the MF, no other child of the MF comes before the application; for any other identifier that is not the EF's own, always; for one of its own, a sibling is named so, or no sibling has it as its FID and nothing above answers to it; for a dot alias, something above takes it for itself |
| `SelectedEf.AppFromSelectedEf` | pysim/pySim/filesystem.py:479-501 | so an application is found under its name from every EF in the MF, unless a child of the MF answers to it |
| `SelectedEf.OwnIdOfSelectedEf` | pysim/pySim/filesystem.py:565-581 | the case of the EF's own identifiers, whether an application carries them or not |
| `SelectedEf.PathFromSelectedEf` | pysim/pySim/runtime.py:275-294 | a path leads to the same file if its first element does, and for a single element only if |
| `SelectedEf.DotsOfSelectedEf` | pysim/pySim/runtime.py:275-282 | `.` is the EF for selection and the directory for the lookup, `..` the directory and the one above it, where the MF has none |
| `EfBesideApp.NamedLikeApp` | pysim/pySim/filesystem.py:479-501 | a child of the MF that is named like an application is found from another EF of the MF, the application from the MF |
| `EfBesideApp.NamedLikeFid` | pysim/pySim/filesystem.py:407-423 | an EF whose name is the FID of its sibling leads to the sibling from itself and to itself from the MF |
| `EfBesideApp.EfsMisled` | pysim/pySim/runtime.py:275-294 | a tree with both |
| `Names.SelectableByFid` | pysim/pySim/filesystem.py:191-206 | from a directory, the MF, itself, its parent and its children are selectable by FID |
| `Probing.ProbeReaches` | pysim/pySim/runtime.py:327-337 | an identifier that is not selectable reaches a file by SELECT if and only if that is a DF beside the current directory, which is never a file of that directory |
| `Probing.ProbeAnswers` | pysim/pySim/runtime.py:327-345 | so a card answers the probe if and only if it has such a DF |
| `Probing.WayBack` | pysim/pySim/runtime.py:468-470 | from there the card resolves every hop of the path back to the file selected before |
| `ProbeSibling.SiblingIsProbed` | pysim/pySim/runtime.py:317-356 | of any two DFs below the MF with names unlike identifiers, each is reached by a probe from the other and recorded as its child |
| `ProbeSibling.SelectSibling` | pysim/pySim/runtime.py:432-472 | `select` then counts as a success, with the card on the one DF and the program on a made-up child of the other |
| `ProbeSibling.SelectGsmFromTelecom` | pysim/pySim/runtime.py:432-472 | for instance `7f20` with DF.TELECOM selected |
| `ClaBytes.StampResolves` | pysim/pySim/commands.py:39-55 | a stamped class byte is read back as its channel if and only if the channel is basic or bit 0x10 is clear; otherwise reading fails |
| `ClaBytes.StampedButNotReadBack` | pysim/pySim/commands.py:39-55 | class byte 0x50 can be stamped for channel 4 and cannot be read back |
| `ClaBytes.BasicClassCannotBeExtended` | pysim/pySim/commands.py:42-53 | basic class bytes can be stamped for channels 0 to 3 only |
| `ClaBytes.StampKeepsClass` | pysim/pySim/commands.py:39-55 | which class bytes can be stamped for which channel; stamping changes the channel bits and no other |
| `ClaBytes.ClassNames` | pysim/pySim/runtime.py:31-40 | which class bytes name which channel, for all 256 |
| `ClaBytes.ModemClassResolves` | src/at_modem.py:354-361 | the driver's class bytes for all twenty channels are read back as those channels |
| `CardSelect.Card.SelectFid` | pysim/pySim/commands.py:274-286 | the card: a SELECT by FID reaches a file in scope with that FID and answers with its FCP; a refused one changes nothing, and neither a steady card nor, for what it accepted before, a loyal one refuses |
| `CardSelect.Card.SelectAid` | pysim/pySim/commands.py:292-305 | the card: a SELECT by AID reaches the ADF from anywhere |
| `CardSelect.Card.OpenChannel` | pysim/pySim-shell.py:1191-1196 | the card: MANAGE CHANNEL gives a new channel the MF or the opener's directory |
| `CardSelect.Card.CloseChannel` | pysim/pySim-shell.py:1203-1208 | the card: the basic channel stays open |
| `CardSelect.Card.Reset` | pysim/pySim/runtime.py:152-152 | the card: only the basic channel remains, on the MF |
| `RuntimeChannel.RuntimeLchan.constructor` | pysim/pySim/runtime.py:188-197 | a channel starts on the MF with nothing known of it |
| `RuntimeChannel.RuntimeLchan.Fork` | pysim/pySim/runtime.py:199-207 | a new channel starts where the card starts it |
| `RuntimeChannel.RuntimeLchan.SelectPost` | pysim/pySim/runtime.py:358-370 | the file and its answer are recorded, an empty answer as none |
| `RuntimeChannel.RuntimeLchan.Hop` | pysim/pySim/runtime.py:421-425 | an accepted SELECT reached the file it was meant for |
| `RuntimeChannel.RuntimeLchan.PlayHops` | pysim/pySim/runtime.py:408-428 | the loop stops at the first refused hop, knowing the last accepted one and its answer |
| `RuntimeChannel.PathIsPresent` | pysim/pySim/runtime.py:400-425 | a card with an ancestor-closed set of files has every hop between two files it has |
| `RuntimeChannel.RuntimeLchan.PlayPathTo` | pysim/pySim/runtime.py:400-428 | finds the path and plays it: the file reported is the card's, and the data are its answer |
| `RuntimeChannel.RuntimeLchan.SelectFile` | pysim/pySim/runtime.py:375-430 | whatever the card refuses, the program's file stays the card's file, and after a success the cached FCP is what that file answers to a SELECT, or none if that is empty; on a reliable card the call succeeds exactly if the card has the file and otherwise stops where the hops first lead off the card; on a loyal card it succeeds for every file accepted before |
| `RuntimeChannel.RuntimeLchan.RollBack` | pysim/pySim/runtime.py:468-470 | the rollback SELECTs of a loyal card are never refused |
| `RuntimeChannel.RuntimeLchan.SelectOrRollBack` | pysim/pySim/runtime.py:463-470 | on a loyal card the file is selected, or the previous one again |
| `RuntimeChannel.RuntimeLchan.RecordChild` | pysim/pySim/runtime.py:347-356 | what was probed becomes a new DF, recorded as a child of the selected directory while the card is on a DF beside it |
| `RuntimeChannel.RuntimeLchan.Probe` | pysim/pySim/runtime.py:317-356 | a refused probe changes nothing; an accepted one has led the card to a DF beside the current directory; a reliable card refuses it exactly if it has no such DF, and otherwise it is recorded exactly if the selected file is a directory free of the name made up for it |
| `RuntimeChannel.RuntimeLchan.ComeBack` | pysim/pySim/runtime.py:468-470 | if it could not be recorded, the rollback brings a loyal card back to the selected file |
| `RuntimeChannel.RuntimeLchan.ProbeOrRollBack` | pysim/pySim/runtime.py:463-470 | after any other end of a probe the program and a loyal card are on the file selected before |
| `RuntimeChannel.RuntimeLchan.SelectName` | pysim/pySim/runtime.py:456-472 | one name: the looked-up file is selected, or the previous one again; a name that is not selectable is probed if it is an identifier |
| `RuntimeChannel.RuntimeLchan.SelectElements` | pysim/pySim/runtime.py:449-450 | the loop over the elements follows the abstract walk, and an element that is not selectable has the outcome of its probe |
| `RuntimeChannel.RuntimeLchan.SelectPathOrRollBack` | pysim/pySim/runtime.py:443-454 | a failure at any element, a refused probe included, leads back to the file selected before the first, on any loyal card |
| `RuntimeChannel.RuntimeLchan.Select` | pysim/pySim/runtime.py:432-472 | names and slash paths, on any card: coherence with the card is kept unless a probe goes wrong, which only an identifier can do, and success means the file the elements denote, with its answer cached; where a path with a slash in front ends, what follows its parts from the MF tells, whatever was selected; on a loyal card any failure leaves the starting file selected on both sides; on a reliable card success and failure are exactly those of the abstract walk, and the two are apart exactly if the walk stops at an unlisted identifier of a DF beside the directory reached that can be recorded there |
| `RuntimeChannel.RuntimeLchan.GetFileByName` | pysim/pySim/runtime.py:260-294 | computes the pure lookup from the current directory, for a path with a slash in front that of its parts from the MF |
| `RuntimeChannel.RuntimeLchan.SelectMfAfterReset` | pysim/pySim/runtime.py:155-157 | after a card reset one SELECT of the MF makes a channel coherent again, whatever the program believed |
| `RuntimeChannels.RuntimeState.constructor` | pysim/pySim/runtime.py:45-92 | at first only channel 0 is open |
| `RuntimeChannels.RuntimeState.Select` | pysim/pySim/runtime.py:432-472 | on its channel a selection does what `RuntimeLchan.Select` says; the other channels stay as they are, and all are coherent unless a probe went wrong |
| `RuntimeChannels.RuntimeState.SelectFile` | pysim/pySim/runtime.py:375-430 | so does `select_file`, which keeps all channels coherent on any card |
| `RuntimeChannels.RuntimeState.AddLchan` | pysim/pySim/runtime.py:162-168 | the new entry is coherent with the channel the card has opened |
| `RuntimeChannels.RuntimeState.SendOpen` | pysim/pySim-shell.py:1191-1193 | MANAGE CHANNEL opens at most the channel asked for and leaves the listed ones as they were |
| `RuntimeChannels.RuntimeState.OpenChannel` | pysim/pySim-shell.py:1191-1196 | keeps: channel 0 exists, numbers equal keys, the table lists the card's channels, each is coherent |
| `RuntimeChannels.RuntimeState.CloseChannel` | pysim/pySim-shell.py:1203-1208 | keeps the same and removes just that channel |
| `RuntimeChannels.RuntimeState.Reset` | pysim/pySim/runtime.py:140-160 | leaves exactly channel 0, coherent at the MF; if the MF cannot be selected the card is on it and the program still on the file from before |
| `RuntimeChannels.RuntimeState.GetLchanByCla` | pysim/pySim/runtime.py:177-182 | a class byte stamped for an open channel leads back to that channel's entry |
| `RuntimeChannels.RuntimeState.Take` | pysim/pySim/runtime.py:140-182 | one step, a selection by name or of a file on some channel, an opening, a closing or a reset, keeps every channel coherent unless it probes an identifier or resets a card that is not loyal |
| `RuntimeChannels.RuntimeState.Run` | pysim/pySim/runtime.py:140-182 | so does any run of such steps: it stays coherent up to the first step that comes apart, and a run without identifiers on a card that is loyal on channel 0 has none |
| `WalkTrace.VisitsCount` | pysim/pySim-shell.py:590-632 | every expected visit happens exactly once and no other happens: the action on each named file, except at or below directories the card lacks, and one skip for each topmost such directory |
| `WalkTrace.BroughtByOne` | pysim/pySim-shell.py:599-632 | two entries of a directory never lead to the same visit |
| `WalkTrace.TraceIsLocal` | pysim/pySim-shell.py:590-632 | what the walk does at or below a directory depends on nothing else |
| `WalkTrace.MergedTrace` | pysim/pySim-shell.py:597-632 | so what it was let into by each entry adds up to one set for the whole directory |
| `ShellWalk.Walk` | pysim/pySim-shell.py:590-632 | on a loyal card, which may refuse to let the walk into a directory: terminates by the height of the tree, does just the visits of the trace for what the card let it into, which on a reliable card is all it has, and ends with the starting directory selected |
| `ShellWalk.WalkAction` | pysim/pySim-shell.py:577-588 | the file selected before the action is selected after it |
| `ShellWalk.GoTo` | pysim/pySim-shell.py:587-588 | the file selected before is selected again |
| `ShellWalk.ExportFile` | pysim/pySim-shell.py:638-665 | counts the file, and as bad if it could not be selected or read; on a reliable card exactly if the card lacks it or it is not readable |
| `ShellWalk.ExportContext.CountExport` | pysim/pySim-shell.py:640-665 | the counters and lists tally with what happened |
| `ShellWalk.ExportContext.CountSkip` | pysim/pySim-shell.py:617-623 | so do the counter and list of skipped directories |
| `ShellWalk.ExportContext.BadsAreExact` | pysim/pySim-shell.py:640-665 | on a reliable card the list of bad files holds every file acted on as often as it was, if the card lacks it or it is not readable, and no other file |
| `ShellWalk.ExportContext.TallyCounts` | pysim/pySim-shell.py:617-665 | exports and skips together are as many as the visits; each directory is in the list as often as it was skipped |
| `ShellWalk.WalkEntries` | pysim/pySim-shell.py:597-632 | the loop ends with the directory selected that it started in |
| `ShellWalk.WalkDir` | pysim/pySim-shell.py:611-629 | a directory is entered, walked and left, or skipped |
| `ShellWalk.Leave` | pysim/pySim-shell.py:629-629 | going to the parent of whatever is selected goes back up one level |
| `ShellWalk.Enter` | pysim/pySim-shell.py:611-623 | a directory is entered, or skipped and then nothing was entered; a reliable card makes one skip it exactly if it lacks it |
| `OtaSms.SpiRoundTrip` | pysim/pySim/ota.py:355-358 | the two SPI octets carry all security parameters |
| `OtaSms.SpiOctets` | pysim/pySim/ota.py:64-76 | which bits of them carry which parameter |
| `OtaSms.ParsedSpi` | pysim/pySim/ota.py:64-76 | the same for reading |
| `OtaSms.SignFillsUp` | pysim/pySim/ota.py:232-237 | check octets are computed over the data filled up with zeros to the next whole block |
| `OtaSms.Padding` | pysim/pySim/ota.py:172-178 | zeros only, less than a block, up to the next whole block |
| `OtaSms.BodyIsWholeBlocks` | pysim/pySim/ota.py:342-348 | the part to be ciphered is whole blocks already, so the cipher's own padding adds nothing |
| `OtaSms.InnerCplIsOuterCpl` | pysim/pySim/ota.py:368-394 | the length signed before ciphering is the length sent after it |
| `OtaSms.EncodingFits` | pysim/pySim/ota.py:338-403 | with ciphering, encoding succeeds exactly up to 114 octets of data with a checksum, 118 with a redundancy check and 122 without, and never with a digital signature |
| `OtaSms.PlainEncodingFits` | pysim/pySim/ota.py:338-403 | without ciphering the limits are 118, 122 and 126 |
| `OtaSms.EncodingErrors` | pysim/pySim/ota.py:141-150 | what is raised for a digital signature and for a counter of more than five octets |
| `OtaSms.CommandOctets` | pysim/pySim/ota.py:338-403 | every octet of an encoded command: lengths, each bit of the SPI, key and algorithm of KIc and KID, TAR, the five octets of the counter, padding count, data and the zeros behind them; with ciphering the last part as deciphered |
| `OtaSms.CommandIsSigned` | pysim/pySim/ota.py:365-391 | its check octets are those of all the others, the length included |
| `OtaSms.DecodedOctets` | pysim/pySim/ota.py:405-446 | what decoding any octets gives: the exceptions in their order, TAR, SPI, and the deciphered data without check octets and padding; a checksum must be that of all other octets |
| `OtaSms.CommandRoundTrip` | pysim/pySim/ota.py:405-446 | decoding an encoded command gives back application, parameters and data, for both block sizes, with checksum or without |
| `OtaSms.AcceptedIsSigned` | pysim/pySim/ota.py:426-432 | whatever is accepted with a checksum was signed in all its other octets, length and header included |
| `OtaResponse.DecodeResponse` | pysim/pySim/ota.py:449-500 | overwriting the secured data in place computes the specified response |
| `OtaResponse.ResponseOctets` | pysim/pySim/ota.py:449-500 | what decoding any message gives, by its octets as deciphered: accepted exactly if the SPI asks for no check octets and the header has none, or for a checksum and it is that of all other octets; then which octet is which field, and the compact response of a successful one |
| `OtaResponse.ResponseRoundTrip` | pysim/pySim/ota.py:449-500 | every response built after section 5.2 of ETSI TS 102 225, plain or ciphered, with checksum or without, is accepted with exactly its padding removed, and the data of a successful one are its number of commands, status word and last response data; the exception are one or two octets of data of a successful response |
| `OtaResponse.PacketLength` | pysim/pySim/ota.py:328-335 | its first two octets announce the rest |
| `SmsTpdu.UdhRoundTrip` | pysim/pySim/sms.py:33-60 | a user data header followed by anything is parsed into every element and the rest |
| `SmsTpdu.ParsedIesArePrefix` | pysim/pySim/sms.py:35-37 | parsing drops only an incomplete element at the end |
| `SmsTpdu.AddressRoundTrip` | pysim/pySim/sms.py:118-154 | odd and even numbers of digits |
| `SmsTpdu.AddressOctets` | pysim/pySim/sms.py:140-154 | the octets of an address: number of digits, type with the bit for no extension, and the digits in swapped nibbles with a filler |
| `SmsTpdu.ParsedAddress` | pysim/pySim/sms.py:118-137 | which octets an address is read from, and when they are too few |
| `SmsTpdu.AddressField.ToBytes` | pysim/pySim/sms.py:140-154 | encodes the digits before the call, and leaves the filler behind |
| `SmsTpdu.WritingTwice` | pysim/pySim/sms.py:140-154 | writing the same object twice gives the same bytes if and only if the number of digits is even or too large to write |
| `SmsTpdu.OneDigitWrittenTwice` | pysim/pySim/sms.py:140-154 | an address of one digit has two the second time |
| `SmsTpdu.DeliverToBytes` | pysim/pySim/sms.py:213-229 | extends the output field by field to the specified encoding |
| `SmsTpdu.DeliverFromBytes` | pysim/pySim/sms.py:193-211 | moves its offset to the specified fields, or fails for a short message |
| `SmsTpdu.DeliverRoundTrip` | pysim/pySim/sms.py:193-229 | an SMS-DELIVER is read back field by field |
| `SmsTpdu.DeliverOctets` | pysim/pySim/sms.py:213-229 | which octet and which bit of the first one carries which field |
| `SmsTpdu.ParsedDeliver` | pysim/pySim/sms.py:193-211 | the same for reading, and which messages are too short |
| `SmsTpdu.SubmitToBytes` | pysim/pySim/sms.py:364-381 | writes the validity period exactly if the format has one |
| `SmsTpdu.SubmitFromBytes` | pysim/pySim/sms.py:326-362 | the format tells the length of the validity period |
| `SmsTpdu.SubmitRoundTrip` | pysim/pySim/sms.py:326-381 | an SMS-SUBMIT with any validity period format is read back field by field |
| `SmsTpdu.SubmitOctets` | pysim/pySim/sms.py:364-381 | which octet and which bit of the first one carries which field, for each validity period format |
| `SmsTpdu.ParsedSubmit` | pysim/pySim/sms.py:326-362 | the same for reading, and which messages are too short |
| `BinaryTransfer.ReadBinary` | pysim/pySim/commands.py:307-340 | data, if any, are the slice asked for; a steady card gives them exactly if it can; no length asked for means the rest of the file, a negative one nothing, zero an exception |
| `BinaryTransfer.Card.Read` | pysim/pySim/commands.py:326-334 | the card: exactly the slice, or a refusal |
| `BinaryTransfer.Card.Update` | pysim/pySim/commands.py:390-398 | the card: the slice written, or nothing changed |
| `BinaryTransfer.CsimReadBinary` | src/at_modem.py:183-214 | success means the slice; a failing chunk leaves a prefix of it |
| `BinaryTransfer.SendChunks` | pysim/pySim/commands.py:385-403 | exactly a prefix of the data is written, all of it unless a chunk was refused; if nothing was refused the card received just these chunks, none longer than a command can carry |
| `BinaryTransfer.ChunksAddUp` | pysim/pySim/commands.py:385-403 | the chunks concatenate to the data, none is empty, and all but the last are as long as a command can carry |
| `BinaryTransfer.UpdateBinary` | pysim/pySim/commands.py:355-406 | in every outcome the file is the old one with exactly the accepted prefix spliced in; with `conserve`, contents that match are kept and no UPDATE is sent |
| `BinaryTransfer.KeepingIsWriting` | pysim/pySim/commands.py:371-382 | keeping matching contents leaves the same file as writing them |
| `BinaryTransfer.ReadsWhatWasWritten` | pysim/pySim/commands.py:342-353 | after a complete write the written place reads as the data and every other place as before |
| `BinaryTransfer.ReadsWhatWasSent` | pysim/pySim/commands.py:385-403 | after a write that stopped early that much of it reads as the data, and every other place as before |
| `BinaryTransfer.WriteFile` | src/app.py:468-483 | success means one slice write from the start, failure exactly a prefix of it |
| `BinaryTransfer.OffsetRoundTrip` | src/app.py:471-476 | an offset of up to 15 bits survives P1 and P2; a larger one would be taken for a short file identifier |
| `DataObjects.FragmentsAddUp` | pysim/pySim/commands.py:591-598 | the fragments concatenate to the object, none is empty, all but the last are as long as the limit, only the first says it is the first |
| `DataObjects.ObjectCard.SetData` | pysim/pySim/commands.py:555-568 | the card: a tag alone deletes, blocks add up until the announced size is there, a refused command changes no object |
| `DataObjects.ObjectCard.RetrieveData` | pysim/pySim/commands.py:523-533 | the card: non-empty blocks of any size as long as something remains |
| `DataObjects.SendFragments` | pysim/pySim/commands.py:591-599 | a completed loop sent just these fragments and the card stored the object; a refused one left the store alone, except for the deletion below |
| `DataObjects.SetData` | pysim/pySim/commands.py:570-599 | stores the TLV, or deletes for an empty value; with room for a single byte per command the first fragment is a deletion and nothing is ever stored |
| `DataObjects.RetrieveData` | pysim/pySim/commands.py:535-552 | however the card splits it, the whole object comes back, or the status word that there is none |
| `DataObjects.StoredValue` | pysim/pySim/commands.py:586-589 | the stored object announces its own length, ends with the value, and no other tag changed |
| `DataObjects.SetThenRetrieve` | pysim/pySim/commands.py:535-599 | setting and retrieving gives the TLV of the value |
| `BerTlv.OneByteTagStrips` | src/decoder.py:111-127 | for one-byte tags stripping undoes building if and only if the tag's low bits do not announce a second byte, or the length happens to make up for it |
| `BerTlv.TwoByteTagStrips` | src/decoder.py:111-127 | for two-byte tags stripping undoes building if and only if the first byte announces the second, or the second happens to read as the length form |
| `BerTlv.HeadersMisread` | src/decoder.py:111-127 | the tags 1F and 01 02 with a value of one byte are not stripped to the value |
| `BerTlv.StripTlv` | src/decoder.py:111-127 | takes off the header it computes, and fails on an object that ends in its tag |
| `BerTlv.ThreeFormsAreBer` | src/app.py:667-673 | the three length forms are those of section 8.1.3 of ITU-T X.690 |
| `BerTlv.LengthIsShortest` | src/app.py:667-673 | the length field is one octet below 128, otherwise one that says how many follow and the number in as few as possible |
| `BerTlv.PartAnnouncesWhole` | pysim/pySim/commands.py:586-589 | any part of an object tells the size of the whole, or not yet |
| `BerTlv.ExtractAidFromFcp` | src/at_modem.py:364-387 | terminates on any bytes and gives the value of the first object tagged 84 among those read behind the header |
| `BerTlv.ParseDirRecord` | src/at_modem.py:390-415 | likewise 4F among those that begin within the template |
| `BerTlv.FcpNameIsFound` | src/at_modem.py:364-387 | in a template of any objects with one-byte tags and lengths it is the first DF name, for both header forms of up to 255 bytes |
| `BerTlv.TwoByteLengthIsMisread` | src/at_modem.py:364-387 | in a template with a two-byte length the walk goes on in the contents, one byte more than the first tag says, or ends at once with what follows the first tag if the length ends in the tag of a DF name |
| `BerTlv.ObjectsRoundTrip` | src/at_modem.py:374-384 | reading objects inverts encoding them |
| `BerTlv.WalkReads` | src/at_modem.py:374-384 | a walk over any bytes up to any end finds the first value among the objects one reads there that begin before it |
| `BerTlv.TwoByteNameIsFound` | src/at_modem.py:364-387 | so the first DF name of any such template is found if and only if it is the first among the objects read from where the walk goes on, or, if the length ends in the tag of a DF name, the bytes after the first tag |
| `BerTlv.SecondObjectIsSeen` | src/at_modem.py:364-387 | for instance where the walk happens to go on at the second object |
| `BerTlv.HiddenDfName` | src/at_modem.py:364-387 | the DF name in one such template of 260 bytes is not found |
| `BerTlv.DirIdentifierIsFound` | src/at_modem.py:390-415 | it is the first application identifier, whatever fills the record up |
| `ObjectIdentifier.DecodeObjectIdentifier` | pysim/osmo-smdpp.py:67-95 | the loops compute the specified arcs, or fail where the data end |
| `ObjectIdentifier.ReadSubidentifier` | pysim/osmo-smdpp.py:69-77 | the inner loop reads one subidentifier of any size |
| `ObjectIdentifier.FirstPairBijection` | pysim/osmo-smdpp.py:80-88 | splitting the first subidentifier is a bijection onto the legal pairs of first arcs |
| `ObjectIdentifier.OidRoundTrip` | pysim/osmo-smdpp.py:67-95 | decoding inverts the encoding of section 8.19 of ITU-T X.690 for arcs of any size, wherever the encoding stands |
| `LoadFile.IjcToCap` | pysim/pySim/javacard.py:29-41 | terminates, and writes one member for each component up to the end or the exception, a last one that announces more bytes than are left as far as it goes |
| `LoadFile.SplitIsWritten` | pysim/pySim/javacard.py:38-41 | without an exception these are all components |
| `LoadFile.OnlyLastIsShort` | pysim/pySim/javacard.py:38-41 | each member is a whole component with its size in the header; only the last can hold fewer bytes than it announces |
| `LoadFile.WrittenIsPrefix` | pysim/pySim/javacard.py:38-41 | the members written concatenate to the input up to its end or up to the header that raises, and which exception it is depends on that header |
| `LoadFile.SplitIsLossless` | pysim/pySim/javacard.py:38-41 | the components of any input concatenate to it |
| `LoadFile.KeyOfMemberName` | pysim/pySim/javacard.py:80-82 | the key of a written member is its component's name again |
| `LoadFile.UpperCaseMember` | pysim/pySim/javacard.py:75-82 | a member is one of a CAP file in either case, under its name as it is written |
| `LoadFile.CapFile.Load` | pysim/pySim/javacard.py:69-97 | fills the table from the archive and reports a missing component |
| `LoadFile.ArchiveRoundTrip` | pysim/pySim/javacard.py:73-82 | an archive written component by component is read back under the components' own names |
| `LoadFile.CapFile.GetLoadfile` | pysim/pySim/javacard.py:99-117 | joins the components that are there in load order |
| `LoadFile.LoadOrderByTag` | pysim/pySim/javacard.py:99-117 | the load order and the required components by their tags in section 6.2 of the Java Card Platform Virtual Machine Specification |
| `LoadFile.TagsInLoadOrder` | pysim/pySim/javacard.py:99-117 | each component joined has the tag at its place in that order |
| `LoadFile.LoadfileSplits` | pysim/pySim/javacard.py:29-41 | splitting a load file gives each of its components byte for byte under its own name, with or without Applet and Export |
| `LoadFile.LoadfileRoundTrip` | pysim/pySim/javacard.py:75-117 | splitting, reading the archive and joining gives the same load file |
| `Eid.ComputedVerifies` | pysim/pySim/euicc.py:59-69 | only the last two digits change, and the result verifies |
| `Eid.CheckValueIsUnique` | pysim/pySim/euicc.py:67-68 | of the check values 2 to 98 only the computed one verifies |
| `Eid.ComputeKeepsIdentifier` | pysim/pySim/euicc.py:47-69 | a string keeps its first 30 digits and gets two more if and only if it does not start with zero; it verifies in any case |
| `Eid.ZerosAreLost` | pysim/pySim/euicc.py:59-69 | of thirty zeros only the check digits 98 come out |
| `Eid.SingleErrorIsCaught` | pysim/pySim/euicc.py:71-75 | in an accepted number of any length no changed digit is accepted |
| `Eid.SwapIsCaught` | pysim/pySim/euicc.py:71-75 | nor is a swap of two unequal neighbours |
| `Certificates.CertificateSet.ForRoot` | pysim/pySim/esim/x509_cert.py:66-87 | a set is made exactly of a root that signed itself, has the policy of a root and may sign certificates and revocation lists |
| `Certificates.CertificateSet.AddIntermediate` | pysim/pySim/esim/x509_cert.py:119-129 | refuses certificates that may not sign or name themselves as signer |
| `Certificates.CertificateSet.VerifyCertChain` | pysim/pySim/esim/x509_cert.py:140-159 | the loop of at most 100 steps computes the verdict of the chain |
| `Certificates.PassedHasPath` | pysim/pySim/esim/x509_cert.py:140-159 | a passed check has a path of signatures to the root through certificates of the set |
| `Certificates.PathDecides` | pysim/pySim/esim/x509_cert.py:140-159 | any path of signatures up from the certificate decides the verdict: passed or a bad signature at the root, no chain where it breaks off or after 100 steps |
| `Certificates.OneIntermediate` | pysim/pySim/esim/x509_cert.py:140-159 | with one intermediate certificate it passes if and only if these signatures are right |
| `Certificates.FirstWithKey` | pysim/osmo-smdpp.py:382-392 | the first loaded root with that key, and none only if there is none |
| `Certificates.CiGetCertForPkid` | pysim/osmo-smdpp.py:382-392 | the loop finds that certificate |
| `SessionLog.PackageIsAccountedFor` | pysim/osmo-smdpp.py:686-758 | in a safe log every bound profile package follows the issue of its transaction and an authentication that passed the chain, signature and challenge checks of that issue and was the last; its signature is by that certificate, its profile is the one authenticated for, and in between there was no cancellation and no report of an installation |
| `SessionLog.NothingAfterEnd` | pysim/osmo-smdpp.py:857-859 | after a cancellation or the report of an installation a package needs a new issue |
| `SessionLog.ReissueNeedsEnd` | pysim/osmo-smdpp.py:519-522 | a transaction is issued again only after its session ended |
| `SessionLog.TrustedMeans` | pysim/osmo-smdpp.py:595-607 | when the client's certificates are good for a root, by the signatures it takes |
| `SessionLog.AuthenticationMeans` | pysim/osmo-smdpp.py:559-682 | what an authentication in a safe log has passed, and what the answer to it signs, by the octets |
| `SessionLog.ChecksMean` | pysim/osmo-smdpp.py:686-859 | likewise for a package, a cancellation and the report of an installation |
| `SmDpp.SmDppHttpServer.constructor` | pysim/osmo-smdpp.py:408-437 | an empty store goes with an empty log |
| `SmDpp.ValidateCertificateChain` | pysim/osmo-smdpp.py:394-406 | succeeds if and only if the server's authority key is listed, the first loaded root with it is usable and signed the server's certificate, and each key before it has no loaded root or a usable one; raises if and only if, with nothing deciding before it, a listed key has an unusable root, or is the authority key of a root that did not sign; keys without a root are passed over |
| `SmDpp.ChainsToItsAuthority` | pysim/osmo-smdpp.py:394-406 | so it accepts only if the server's own authority key is listed and that root signed the server's certificate |
| `SmDpp.CheckCertificates` | pysim/osmo-smdpp.py:595-607 | passes if and only if the client's certificates are good for the root of the session |
| `SmDpp.SmDppHttpServer.ChooseCi` | pysim/osmo-smdpp.py:505-517 | the key chosen is always the one that signed the server's certificate |
| `SmDpp.SmDppHttpServer.InitiateAuthentication` | pysim/osmo-smdpp.py:478-555 | exactly when it succeeds, with the condition on the client's keys as above, and when it answers 8.8.4 or 8.8.2; the session it stores; the log stays safe |
| `SmDpp.SmDppHttpServer.AuthenticateClient` | pysim/osmo-smdpp.py:559-682 | succeeds if and only if all checks pass for this session; a failure changes nothing in the store and its status codes name a check that failed; the log stays safe |
| `SmDpp.SmDppHttpServer.GetBoundProfilePackage` | pysim/osmo-smdpp.py:686-758 | succeeds if and only if the session is authenticated, its stored certificate signed for it and the package can be encoded; the session it stores, which a failing encoding does not undo; status codes name the check that failed; the log stays safe |
| `SmDpp.SmDppHttpServer.CancelSession` | pysim/osmo-smdpp.py:820-859 | deletes the session if and only if its stored certificate signed for that; the log stays safe |
| `SmDpp.SmDppHttpServer.HandleNotification` | pysim/osmo-smdpp.py:760-811 | the report of an installation deletes the session under the key made of its identifier if and only if the stored certificate signed for it; nothing else changes the store; the log stays safe |
| `SmDpp.SmDppHttpServer.Serve` | pysim/osmo-smdpp.py:862-882 | after any sequence of requests of the five kinds the log is safe |

## Left out

- `RuntimeChannel.RuntimeLchan.Select`: once a probe has gone wrong nothing further is modelled: a path then goes on from the file made up, or is rolled back from it.
- `RuntimeChannel.RuntimeLchan.Probe`: the card has no files that the tree lacks, so what a probe reaches is a DF, and the branches of pysim/pySim/runtime.py:349-356 for EFs are never taken; `add_file` adds the new DF to the file objects, here it is the selected file alone.
- `RuntimeChannel.RuntimeLchan.SelectFile`: all applications have a file system, so the detour of pysim/pySim/runtime.py:383-398 is never taken; decoding the FCP, which may raise an exception, and the value of `selected_adf` after several hops are not part of this model.
- `RuntimeChannel.RuntimeLchan.SelectMfAfterReset`: if even the SELECT of the MF after a reset is refused, the rollback that the source then attempts is not modelled; the call just fails.
- `RuntimeChannels.RuntimeState.constructor`: probing the card for add-on profiles and applications, and the selections that takes, come before what is modelled.
- `CardFiles.CardFile.AddFile`: the service table that `_add_file_services` fills is left out.
- `RuntimeChannel.RuntimeLchan.GetFileByName`: reads the tree as a value (`FileTree.Snapshot` of the file objects), because nothing in runtime.py that is modelled here changes it.
- `ShellWalk.Walk`: for a loyal card and for names that denote the file that carries them (`ShellWalk.GoodNames`); a card that refuses the way back is not covered. The action is the export, of which only success and failure of reading contents are modelled.
- `CardSelect.Card.SelectFid`: file identifiers are unique in the scope of one SELECT, and AIDs are unique and complete, so `select_adf_by_aid` sends them as they are. The card is a UICC.
- `OtaSms.CommandRoundTrip`: without ciphering `encode_cmd` sends no length while `decode_cmd` always expects one and always deciphers, so there is no round trip to prove; redundancy checks are not implemented on receipt, digital signatures nowhere.
- `OtaResponse.ResponseRoundTrip`: the sender is written after the standard, because the repository only receives responses.
- `SmsTpdu.DeliverRoundTrip`: the conversions to and from SMPP are not part of this model.
- `BinaryTransfer.UpdateBinary`: data are already expanded; bytes stand for hex digits, whose case matters only to `conserve` and is a parameter; the returned data of all chunks are left out. `update_record` works the same way with a single command and would add only easier members.
- `DataObjects.SetData`: tags of one byte and values below 2^32 bytes; a card that takes a tag byte with all low bits set for the start of a longer tag is not modelled.
- `BerTlv.FcpNameIsFound`: templates with the header forms of up to 255 bytes; the one of up to 65535, which `csim_send` can deliver by appending the answer to GET RESPONSE to the data of the first answer (src/at_modem.py:120-132), is what `BerTlv.TwoByteNameIsFound` is about. The application template of EF.DIR has at most 127 bytes (section 13.1 of ETSI TS 102 221).
- `BerTlv.ThreeFormsAreBer`: a value of more than 65535 bytes would get an odd number of hex digits from `write_tlv`, and a command of more than 255 bytes a wrong Lc; neither is modelled.
- `LoadFile.CapFile.Load`: `get_loadfile_aid` and the applet component are left out.
- `SmDpp.SmDppHttpServer.AuthenticateClient`: ASN.1, X.509 parsing, ECDSA, EID ranges and the directory of profiles are parameters, and so is the signature that signing gives each time; certificates are taken to carry their key identifiers; the profile metadata that the session and the answer carry are left out.
- `SmDpp.SmDppHttpServer.GetBoundProfilePackage`: the package is its profile's name; encoding and encrypting it is a parameter that says whether that works.
- `SmDpp.SmDppHttpServer.HandleNotification`: the conversions `b2h` and `h2b` are parameters, so that nothing is taken for granted of the letter case of a transaction identifier.
- The in-memory session store's aliasing, HTTP routing, serial and modem input and output, logging, command registration, the static tables of files and the toolkit decoders are left out.
