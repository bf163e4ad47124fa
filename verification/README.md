# Blentinel in Dafny

Blentinel is a monitoring system: probes report to a hub, and a build tool makes
their releases. This project models the deterministic code that the three share
or rest on, and proves what that code promises. One module models one source
file or one part of it; the modules whose names end in `Laws` hold what is
proved about it.

- **Enrollment codes** (`common/src/enrollment.rs`): `Base32`, `Crc32`,
  `CrcValues`, `ErrorDetection`, `Enrollment`, `EnrollmentLaws`, over `Words`
  (the bitwise operators of `u32`, on naturals, with the width written out),
  `BitStrings`, `Bytes` and `Utf8`. The loops that pass bytes through a 32-bit
  shift buffer are proved against the bit string cut into groups; the code round
  trip holds exactly for URLs of at most 65535 bytes; any change within five
  neighbouring symbols is caught, by the linearity and injectivity of the CRC of
  section 8 of RFC 1952 and, across the end of the payload, by following all its
  steps or undoing them.
- **The SNMP value language** (`common/src/snmp.rs`, with validation from
  `common/src/checks.rs`): `Snmp`, `SnmpKeywords`, `SnmpValidity`, `SnmpLaws`,
  `SnmpOptions`, `SnmpRoundTrip`, `SnmpMeanings`, `Oids`.
  `common/src/snmp.rs:41` promises that printed values read back the same.
  `validate` doesn't ask for what this needs, so the theorem is an equivalence:
  valid values read back the same exactly when they are separable (no separator
  in a text, an unambiguous head) and on one line.
- **Versions, rollbacks, stamping** (`common/src/release.rs`,
  `blentinelmake/src/stamp.rs`): `Version`, `VersionOrder`, `Rollbacks`,
  `DevVersions`, `Stamp`, `StampedLines`, `StampLaws`, `LockLaws`,
  `StampExamples`. The order of versions is section 11 of Semantic Versioning
  2.0.0, a total order; every run of rollbacks descends; stamping changes the
  version lines it should and no other character, and can be undone exactly when
  no such line held the new version already.
- **Discovery and inventory** (`common/src/discovery.rs`,
  `common/src/inventory.rs`): `Addresses`, `Sweeps`, `Discovery`,
  `DiscoveryLaws`, `Inventory`, `InventoryLaws`, `InventoryTwice`,
  `InventoryOrder`, over `Sorting`, `Reordering`, `ReorderingExactly` and
  `Cutting`. That a bounded inventory stays as it is when it is bounded again
  doesn't hold of every one, nor that the order it was sent in doesn't matter;
  the theorems say exactly of which.
- **Lists of release files** (`common/src/hub_release.rs`,
  `blentinelmake/src/hub_release.rs`): `Sums`, `SumsLaws`, `Binaries`.
- **Alert and calendar rules** (`hub/src/model.rs`): `Routing`, `Thresholds`,
  `Calendar`, `CalendarForms`, `Slugs`.
- **Signed answers** (`common/src/ack.rs`, `common/src/poll.rs`):
  `SignedAnswers`, a world of steps in which anyone can send anything but only a
  key's holder signs with it.

`dafny verify dfyconfig.toml` checks the whole project, with Dafny 4.11.

A round trip, an order or a refusal doesn't say by itself which bytes, which
order or which limits there are. Beside each stand lemmas that do, in their own
terms: the CRC's residue and check value, the symbols, the layout of a code, what
each SNMP option means and which values are valid, the order of versions in the
words of its standard, what a release list compares, which status a result has.

`Text`, `Splitting`, `Edits`, `Decimals` and `Orders` model the text and number
operations of Rust's standard library that the sources use; `Sequences` holds
facts about parts of sequences.

Where the code does less than its documentation or its tests say, the model
follows the code; a lemma says for all inputs how far the promise holds, and
another names an input for which it doesn't:

- an enrollment code of a URL of more than 65535 bytes is always damaged
  (`EnrollmentLaws.RoundTrip`; `EnrollmentLaws.LongUrlIsLost`);
- valid SNMP values with separators in their texts don't read back
  (`SnmpRoundTrip.ValuesRoundTrip`; `SnmpRoundTrip.SeparatorInName`);
- the comparison that sorts meanings is an order only of keys among which no
  other text stands between two numbers the wrong way round
  (`SnmpMeanings.OrdersExactly`; `SnmpMeanings.NotAnOrder`);
- `partial` of a sweep misses one host for a machine whose address isn't a host
  address (`Sweeps.PartialIsIncomplete`; `Sweeps.OneLeftOut`);
- bounding an inventory twice isn't bounding it once when the cut at 200
  characters makes two kept mounts, or two kept addresses of an interface, the
  same, or leaves a service without a name, out of order or beside one of the same
  name (`InventoryTwice.BoundedTwice`; `InventoryTwice.SameMountsLeft`,
  `InventoryTwice.BlankLeft`);
- the order of the lists of an inventory matters where two elements that sort alike
  differ, or where how many are left of them shows
  (`InventoryOrder.OrderDoesNotMatter`; `InventoryOrder.CaseDecides`,
  `InventoryOrder.RepeatCounts`);
- reminders can name a channel twice when the first rule that reminds does
  (`Routing.GatheredOnce`; `Routing.ReminderTwice`);
- levels of thresholds that are each valid can leave no value for a warning
  (`Thresholds.WarningIsPossible`; `Thresholds.LevelsMayHideWarnings`);
- a date and time is also read from other texts than the documented one: with
  digits missing in one place and too many in another, with more parts after the
  day, with a plus before a number, with white space before the time
  (`CalendarForms.UsualExactly`; `CalendarForms.OtherDigits`,
  `CalendarForms.MoreAfterDay`, `CalendarForms.PlusBefore`,
  `CalendarForms.SecondBlank`);
- the slug of a slug is another when the cut at 64 characters left a dash
  (`Slugs.SlugTwice`; `Slugs.DashIsLost`);
- a name that ends in a carriage return isn't read from the list of files it was
  written to (`SumsLaws.SumsRoundTrip`; `SumsLaws.ReturnIsLost`).

## Model

| member | source | states |
|---|---|---|
| Words.ShiftIn | common/src/enrollment.rs:177 | shifting a `u32` left and or-ing a smaller number in moves the low bits up and appends the number's bits, whatever high bits are lost |
| Words.ShiftOut | common/src/enrollment.rs:181 | shifting right and masking takes exactly the bits above the lowest ones |
| Base32.Encode | common/src/enrollment.rs:173-188 | the loop emits the symbols of the bit string cut into groups of five, the last padded with zeros: ceil(8n/5) of them |
| Base32.Decode | common/src/enrollment.rs:190-213 | the loop gives the whole bytes of the digits that the text reads as, or the first character that is no digit |
| Base32.OctetsOfDigits | common/src/enrollment.rs:173-213 | decoding undoes encoding for every byte sequence |
| Base32.ReadingOfSymbols | common/src/enrollment.rs:193-204 | every written symbol reads as its digit |
| Base32.SkippedAnywhere | common/src/enrollment.rs:194-196 | a dash or white space anywhere changes nothing |
| Base32.LookalikeAnywhere | common/src/enrollment.rs:197-204 | nor does writing a digit in the other case or as a lookalike |
| Base32.SymbolsAre | common/src/enrollment.rs:30 | the 32 symbols are the digits and the capital letters but I, L, O and U, in ASCII order |
| Base32.Lookalikes | common/src/enrollment.rs:197-204 | O reads as 0, I and L as 1, in either case, and U as nothing |
| Base32.OthersRead | common/src/enrollment.rs:197-204 | any other character reads as a digit exactly when it is a symbol in some case, and as that symbol |
| Crc32.Crc32 | common/src/enrollment.rs:217-230 | the loops compute the CRC: eight steps of the shift register for each byte, complemented at both ends |
| CrcValues.Residue | common/src/enrollment.rs:217-230 | any bytes with their checksum after them, lowest byte first, leave the residue 0xDEBB20E3 of this CRC in the register |
| CrcValues.CheckValue | common/src/enrollment.rs:217-230 | the checksum of the digits from 1 to 9 is 0xCBF43926, as section 8 of RFC 1952 has it |
| CrcValues.ChecksumOfNothing | common/src/enrollment.rs:217-230 | and that of no bytes is 0 |
| Crc32.StepIsLinear | common/src/enrollment.rs:222-226 | one step of the register is linear over exclusive or |
| Crc32.StepsAreInjective | common/src/enrollment.rs:221-227 | any number of steps loses no information |
| Crc32.RunDifference | common/src/enrollment.rs:219-228 | the difference of two runs over up to four bytes is the difference of the states and the packed bytes, stepped |
| Crc32.BurstChangesChecksum | common/src/enrollment.rs:217-230 | inputs of one length that differ only within four consecutive bytes have different checksums |
| Crc32.Straddle | common/src/enrollment.rs:217-230 | no difference in the last bits of the payload is made up for by one in the first bits of the checksum, 25 bits in all |
| ErrorDetection.NoTwoNear | common/src/enrollment.rs:105-106 | two payloads whose sealed forms differ only within 25 consecutive bits are the same payload |
| CrcValues.SealedEnds | common/src/enrollment.rs:105-106 | a sealed payload is the payload and then its checksum, highest byte first |
| Enrollment.Encode | common/src/enrollment.rs:87-108 | the text is the prefix and the symbols of version, flags, length modulo 65536, fields and CRC |
| EnrollmentLaws.HeaderIs | common/src/enrollment.rs:90-95 | a code says version 3, and in the lowest bit of the next byte whether it pins a certificate |
| EnrollmentLaws.LayoutIs | common/src/enrollment.rs:96-104 | at which byte of a code the URL, the two keys, the certificate, the token and the secret stand |
| Enrollment.Reader.Take | common/src/enrollment.rs:162-166 | takes the next bytes and advances, or fails and leaves the rest as it was |
| Enrollment.Unpack | common/src/enrollment.rs:127-156 | what the payload says, or which error, in the order of the source's checks |
| Enrollment.Decode | common/src/enrollment.rs:112-156 | what the text says, or which error |
| EnrollmentLaws.NotACodeExactly | common/src/enrollment.rs:113-118 | a text is no code exactly when, without white space around it, it does not start with `BLT1-` in some case |
| EnrollmentLaws.BadCharacterIsNamed | common/src/enrollment.rs:204 | the first character that is neither skipped nor a digit is named, whatever follows |
| EnrollmentLaws.OtherVersion | common/src/enrollment.rs:127-131 | a sealed payload of another version is refused as such, and an empty one is damaged |
| EnrollmentLaws.OnlyLowestFlag | common/src/enrollment.rs:132-147 | of the flags only the lowest bit counts |
| EnrollmentLaws.DamagedExactly | common/src/enrollment.rs:127-156 | a payload of version 3 is damaged exactly when its length is not that of its fields or its URL is not UTF-8 |
| EnrollmentLaws.UnsealedIsDamaged | common/src/enrollment.rs:120-125 | bytes that do not end in their checksum, or are fewer than it, are damaged |
| EnrollmentLaws.RoundTrip | common/src/enrollment.rs:87-156 | decoding an encoded code gives the code back exactly when its URL is at most 65535 bytes; else the code is always damaged |
| EnrollmentLaws.LongUrlIsLost | common/src/enrollment.rs:96 | the code of a URL of 65536 letters is damaged, whatever its keys |
| EnrollmentLaws.AcceptedRoundTrips | common/src/enrollment.rs:87-156 | what any accepted text says survives being encoded and decoded again |
| EnrollmentLaws.TypedFreely | common/src/enrollment.rs:110-119 | white space around, the prefix in any case, and any body that reads as the same digits say the same code |
| EnrollmentLaws.NeighboursCaught | common/src/enrollment.rs:119-125 | replacing up to five neighbouring symbols, wherever they are, gives a damaged code, unless exactly the padding bits of the last symbol changed, and then the same code |
| EnrollmentLaws.TruncatedIsDamaged | common/src/enrollment.rs:119-147 | a code that lost symbols at its end is damaged, however many |
| EnrollmentLaws.WrongLengthIsDamaged | common/src/enrollment.rs:133-147 | bytes that start as those of a readable code and have any other length are damaged |
| Oids.OidCharacters | common/src/checks.rs:864-880 | an OID holds digits and dots only |
| Oids.OidExactly | common/src/checks.rs:864-880 | which texts are identifiers, and of which numbers: 2 to 128 of 32 bits between dots, the first at most 2, the second at most 39 after 0 and 1; one dot before does not count |
| SnmpValidity.OidDecides | common/src/checks.rs:769-774 | a value of which only the OID is said is valid exactly when that is one |
| SnmpValidity.NamesTaken | common/src/checks.rs:775-783 | any valid value takes exactly the names of at most 60 characters without white space around them or control characters |
| SnmpValidity.UnitsTaken | common/src/checks.rs:800-807 | and such units of at most 12 |
| SnmpValidity.RowsTaken | common/src/checks.rs:784-790 | and rows under an OID, of a walk only |
| SnmpValidity.SharesTaken | common/src/checks.rs:784-793 | and a share of an OID, if it is no rate |
| SnmpValidity.FactorsTaken | common/src/checks.rs:794-799 | and a finite factor other than 0 |
| SnmpValidity.ExpectationsTaken | common/src/checks.rs:808-822 | and at most 30 words of 1 to 200 characters that it must be, or that it must not be, not both |
| SnmpValidity.MeaningsTaken | common/src/checks.rs:823-837 | and at most 30 meanings of 1 to 40 characters for as many |
| SnmpValidity.LimitsTaken | common/src/checks.rs:838-858 | and finite limits, of two both upper or both lower ones and the warning reached first |
| Snmp.ParseValue | common/src/snmp.rs:54-142 | the loop applies the options, in order, to what the head says; the first that can't be applied is named with its reason |
| SnmpKeywords.AnyCase | common/src/snmp.rs:91 | keywords that agree but for ASCII case apply to the same value or fail with the same reason, for any value and argument |
| SnmpKeywords.WalkMeans | common/src/snmp.rs:92 | `walk`, in any case, asks for a walk and takes nothing after it |
| SnmpKeywords.RowsMeans | common/src/snmp.rs:93-96 | `rows` asks for a walk and names the column, which must not be missing |
| SnmpKeywords.ShareMeans | common/src/snmp.rs:97 | `of` names what the value is a share of |
| SnmpKeywords.RateMeans | common/src/snmp.rs:98 | `per` is followed by `second`, in any case |
| SnmpKeywords.TimesMeans | common/src/snmp.rs:99 | `x` and `*` multiply, by a finite number only |
| SnmpKeywords.DivideMeans | common/src/snmp.rs:100-106 | `/` divides by a finite number; 0 is refused |
| SnmpKeywords.UnitMeans | common/src/snmp.rs:107 | `unit` says the unit, which must not be missing |
| SnmpKeywords.MeaningsMean | common/src/snmp.rs:108-120 | `means` adds the pairs between commas, blank ones left out: each key means what the last pair with it says; there must be a meaning, and each pair a `=` |
| SnmpKeywords.UnwantedMeans | common/src/snmp.rs:121 | `not` says the words it must not be, which must not be missing |
| SnmpKeywords.WarnMeans | common/src/snmp.rs:122-132 | `warn` sets its limit: `<` or `>` and a finite number |
| SnmpKeywords.DownMeans | common/src/snmp.rs:122-132 | and `down` its own |
| SnmpKeywords.OthersMean | common/src/snmp.rs:134-138 | any other word is refused, with the list of options |
| SnmpKeywords.EmptyOption | common/src/snmp.rs:71 | a blank option changes nothing, wherever it stands |
| SnmpKeywords.FirstWrong | common/src/snmp.rs:71-76 | the first option that cannot be applied is named, after the value's name or, without one, its OID |
| SnmpKeywords.BlankLine | common/src/snmp.rs:33-39 | nor does a blank line |
| Snmp.ValueText | common/src/snmp.rs:167-210 | the line is the head and the options that the value needs, in their order |
| SnmpKeywords.TableIsWritten | common/src/snmp.rs:167-210 | which words, and in which order, a value of a table with meanings and upper limits is written in |
| SnmpKeywords.RateIsWritten | common/src/snmp.rs:167-210 | and a rate without a name, with lower limits |
| SnmpKeywords.ScaleIsShown | common/src/snmp.rs:155-164 | a factor is written as the divisor it is the inverse of, if that is a small whole number, else as a multiplier |
| SnmpLaws.HeadReads | common/src/snmp.rs:57-70 | the head of a valid separable value reads as its OID, name and expectation |
| SnmpLaws.AmbiguousHead | common/src/snmp.rs:58-64 | the head of an ambiguous valid value reads as one of another name |
| SnmpOptions.ScaleReads | common/src/snmp.rs:99-106 | a printed factor, as a divisor or a multiplier, reads back |
| SnmpOptions.NamesRead | common/src/snmp.rs:108-120 | printed meanings, in any order of their keys, read back |
| SnmpOptions.UnwantedReads | common/src/snmp.rs:121 | so do the words it must not be |
| SnmpOptions.WarnReads | common/src/snmp.rs:122-132 | and its limits |
| SnmpRoundTrip.MeasureTakes | common/src/snmp.rs:176-190 | the options that say how a value is read are fit to stand between semicolons, and applied to a value without them give one with these fields of the value printed and no other changed |
| SnmpRoundTrip.JudgeTakes | common/src/snmp.rs:191-205 | so do the options that say what it means and how it is judged |
| SnmpRoundTrip.LineIsClean | common/src/snmp.rs:54-142 | whatever any line says holds none of the separators |
| SnmpRoundTrip.LineRoundTrip | common/src/snmp.rs:41-44 | the line of a valid value says the value exactly when the value is separable |
| SnmpRoundTrip.ValuesRoundTrip | common/src/snmp.rs:33-44 | the text of any list of valid values reads back as the list exactly when each is separable and has no line break in a word |
| SnmpRoundTrip.SeparatorInName | common/src/snmp.rs:33-44 | the value of OID 1.3 and name `a;b` is valid and isn't read from its own line |
| SnmpMeanings.NotAnOrder | common/src/snmp.rs:213-221 | `10` before `1x` before `9` before `10`: the comparison isn't transitive |
| SnmpMeanings.NumbersExactly | common/src/snmp.rs:216 | which keys are numbers, and which: digits, after a sign if there is one, from -2^63 to 2^63 - 1 |
| SnmpMeanings.OrdersExactly | common/src/snmp.rs:213-221 | it is an order of some keys exactly when no key that isn't a number stands, as a text, after one number and before another that isn't larger |
| Version.ShowParses | common/src/release.rs:122-145 | every version reads back as it is printed |
| Version.IdentifierOrderIsPrecedence | common/src/release.rs:180-187 | comparing numeric identifiers by length, then as text, is comparing their numbers, of any size |
| Version.PreReleaseOrder | common/src/release.rs:169-192 | the loop compares the lists of identifiers as section 11 of Semantic Versioning 2.0.0 says |
| Version.Compare | common/src/release.rs:147-158 | the comparison is precedence as that section defines it |
| VersionOrder.PrecedenceIsEarlier | common/src/release.rs:147-192 | precedence is the order that section 11 words: the first of major, minor and patch number that differs decides; then a pre-release is earlier than its release; of two the first identifier that differs decides, numbers as numbers and before texts, and a proper prefix is earlier |
| VersionOrder.PreReleaseChain | common/src/release.rs:169-192 | the chain of that section, from 1.0.0-alpha to 1.0.0, ascends |
| VersionOrder.NumbersChain | common/src/release.rs:147-150 | and so does its other one, from 1.0.0 to 2.1.1 |
| Version.VersionsAreOrdered | common/src/release.rs:147-158 | any two versions are ordered one way, and equal only if they are the same version |
| Version.VersionsAreTransitive | common/src/release.rs:147-158 | the order is transitive, strictly where a step is strict |
| Rollbacks.Validate | common/src/release.rs:427-447 | accepts exactly a known format, a version, and a nonempty list of versions each newer than it; each refusal says what is wrong |
| Rollbacks.ValidExactly | common/src/release.rs:427-447 | a rollback is valid exactly when it has format 1, a version, and some versions to go back from, each later as section 11 words it |
| Rollbacks.RefusedExactly | common/src/release.rs:427-447 | a rollback can be refused exactly when it is not valid |
| Rollbacks.RunDescends | common/src/release.rs:407-447 | after any run of valid rollbacks, each allowed by the version that runs, an older version runs |
| Rollbacks.NoVersionComesBack | common/src/release.rs:407-447 | at any later point of such a run the version is older than at any earlier one |
| DevVersions.DevVersionAccepts | blentinelmake/src/stamp.rs:37-55 | which bases and build numbers are accepted, what comes of them, and that the last check never fails |
| DevVersions.DevVersionsAscend | blentinelmake/src/stamp.rs:34-55 | development versions of one base are ordered as their build numbers, come before the base, and are never accepted as a base |
| DevVersions.VersionCharacters | common/src/release.rs:122-145 | a version holds only letters, digits, dots, dashes and pluses |
| DevVersions.DevVersionStamps | blentinelmake/src/stamp.rs:25-27 | so a development version is another text than its base, on one line |
| Stamp.StampManifest | blentinelmake/src/stamp.rs:59-81 | the loop rewrites the designated lines and counts them; any other number than one is an error |
| StampExamples.SectionDecides | blentinelmake/src/stamp.rs:65-70 | a manifest of one section and one version is stamped exactly when the section is `workspace.package` |
| Stamp.StampLock | blentinelmake/src/stamp.rs:86-113 | the loops rewrite the version lines of the local blocks and count them; any other number than that of members is an error |
| StampExamples.SourceDecides | blentinelmake/src/stamp.rs:89-105 | a lock file of one package is stamped exactly when the package has no source |
| Stamp.StampBlock | blentinelmake/src/stamp.rs:98-105 | the inner loop rewrites and counts the version lines of one block |
| StampedLines.StampedLine | blentinelmake/src/stamp.rs:70 | a version line keeps its white space and gets the new version; replacing back restores it |
| StampLaws.SectionsStay | blentinelmake/src/stamp.rs:65-72 | stamping leaves every line in its section |
| StampLaws.ManifestStamped | blentinelmake/src/stamp.rs:57-81 | a manifest is stamped exactly when one line is designated; that line is rewritten and every other stays |
| StampLaws.ManifestStampedBack | blentinelmake/src/stamp.rs:59-81 | stamping back gives the text exactly when no designated line held the new version; else it is refused with their number |
| StampLaws.ManifestRestamped | blentinelmake/src/stamp.rs:34-36 | a stamped manifest isn't stamped again from the same base |
| LockLaws.LocalByLines | blentinelmake/src/stamp.rs:93 | whether a block is local shows in its lines with their ends |
| LockLaws.BlockStays | blentinelmake/src/stamp.rs:89-105 | a stamped block stays local, and no package starts in it |
| LockLaws.LockStamped | blentinelmake/src/stamp.rs:84-113 | a stamped lock file has the same blocks, with the version lines of local ones, as many as members, rewritten and every other line as it was |
| LockLaws.LockStampedBack | blentinelmake/src/stamp.rs:86-113 | stamping back gives the text exactly when no local package held the new version; else it is refused with their number |
| LockLaws.LockRestamped | blentinelmake/src/stamp.rs:86-113 | a stamped lock file isn't stamped again from the same base, unless it has no members, and then nothing changes |
| Addresses.AddressParses | common/src/discovery.rs:117-130 | an IPv4 address reads back as it is printed |
| Addresses.AddressIsShown | common/src/discovery.rs:117-130 | a text that reads as an address is how that address is printed |
| Addresses.MacIsCanonical | common/src/discovery.rs:147-160 | a kept hardware address stands for the bytes of the text it came from, and is kept as it is |
| Addresses.MacIsKept | common/src/discovery.rs:147-160 | what is kept of any text: exactly six pairs of hex digits between colons or dashes, in lower case between colons, unless they are all zeros or all ones; a plus that starts a pair is read as 0 |
| Sweeps.MaskIs | common/src/discovery.rs:183-186 | the mask arithmetic on `u32` gives the network's first and last address, without overflow |
| Sweeps.RangeGives | common/src/discovery.rs:173-197 | nothing for a prefix of 31 or more or without room; else the network's text and its lowest hosts but the machine's, ascending, at most `room`; one is left out only when they are that many and below it |
| Sweeps.LookedIs | common/src/discovery.rs:177-183 | the whole network is looked at, or the 24 bits around the machine if it is shorter than that and has more hosts than there is room for; never more than 8 bits' network |
| Sweeps.PartialIsIncomplete | common/src/discovery.rs:173-197 | `partial` says exactly whether another host of the machine's network is left out, if and only if the machine's address is a host, or the prefix is under 24, or `room` isn't one less than the hosts |
| Sweeps.OneLeftOut | common/src/discovery.rs:192-195 | an address, prefix and room for which it doesn't |
| Discovery.Discovery.Bound | common/src/discovery.rs:111-142 | the whole new state is what the specification makes of the old one |
| DiscoveryLaws.PortsAre | common/src/discovery.rs:136-138 | the kept ports are the known ones that were sent, ascending, each once |
| DiscoveryLaws.TidiedIs | common/src/discovery.rs:127-142 | a kept device is canonical: printed address, no blank or long name, one form of hardware address, known ports ascending; tidied again it stays |
| DiscoveryLaws.NameIsKept | common/src/discovery.rs:129-132 | a name is kept, as its first 200 characters, exactly when these are not all white space |
| DiscoveryLaws.RestOfDevice | common/src/discovery.rs:127-138 | whether a device answered stays, and its hardware address, if it is one, in its one form |
| DiscoveryLaws.RestOfSweep | common/src/discovery.rs:111-116 | the times and the number of addresses stay; the first 16 networks are kept, and of them and of the note the first 200 characters |
| DiscoveryLaws.KnownPorts | common/src/discovery.rs:29-52 | which ports are known |
| DiscoveryLaws.BoundedDevicesAre | common/src/discovery.rs:106-142 | the kept devices ascend by address; each is the first that was sent with its address; they are the lowest addresses sent, and one is left out only when 1024 are kept |
| DiscoveryLaws.BoundedTwice | common/src/discovery.rs:111-142 | bounding a bounded sweep changes nothing, on every input |
| Sorting.SortIsStable | common/src/discovery.rs:122 | sorting leaves elements of one rank in their order |
| Sorting.DedupKeepsFirst | common/src/discovery.rs:123 | of each rank in a sorted list the first stays |
| Reordering.LeftRanksAgree | common/src/inventory.rs:111-113 | where neighbours of one rank are the same, any order of a list leaves the same ranks at the same places |
| Reordering.OrderDecides | common/src/inventory.rs:111-113 | of two elements of the rank of one that is left, either stands at the same place after some order of the list |
| ReorderingExactly.OrdersLookSame | common/src/inventory.rs:111-118 | for any order, any finer one by which elements are the same, any limit and any view of the elements: when all orders of a list are kept with the same view |
| Inventory.Inventory.Bound | common/src/inventory.rs:97-138 | the whole new state is what the specification makes of the old one |
| InventoryLaws.GatewayIsKept | common/src/inventory.rs:131-134 | the gateway is kept as it is exactly when it is an address |
| InventoryLaws.SystemIsKept | common/src/inventory.rs:98-100 | the system keeps its family and the first 200 characters of its texts |
| InventoryLaws.ElementsAreKept | common/src/inventory.rs:102-129 | what is kept of a volume, a service and an interface is one that was sent, with the first 200 characters of each text and at most 16 addresses |
| InventoryTwice.VolumesTwice | common/src/inventory.rs:102-108 | bounding the volumes again changes nothing exactly when no two kept mounts agree in the characters that are kept |
| InventoryTwice.ServicesTwice | common/src/inventory.rs:110-119 | and the services exactly when each kept name, once cut, is still a name, in order by lower case, and not its neighbour's |
| InventoryTwice.InterfacesTwice | common/src/inventory.rs:121-130 | and the interfaces exactly when no two kept addresses of a kept one agree in the characters that are kept |
| InventoryTwice.BoundedTwice | common/src/inventory.rs:94-138 | bounding a bounded inventory changes nothing exactly when all three hold, whatever was sent |
| InventoryTwice.ShortTwice | common/src/inventory.rs:94-138 | which they do when every text is within the limit |
| InventoryTwice.SameMountsLeft | common/src/inventory.rs:102-108 | two volumes whose mounts differ only after 200 characters: both are kept, and one is lost the next time |
| InventoryTwice.BlankLeft | common/src/inventory.rs:110-119 | a service named by 200 blanks and an `x`: it is kept, and lost the next time |
| InventoryOrder.ServicesInAnyOrder | common/src/inventory.rs:110-119 | every order of the services is bounded to the same exactly when those that agree in lower case with one of the first 1000 names are the same after cutting, and, where a repeated name agrees with another, the list is full and the same from there on |
| InventoryOrder.FewInAnyOrder | common/src/inventory.rs:110-119 | with fewer than 1000 kept: exactly when those that agree in lower case are the same after cutting, and no repeated name agrees with another |
| InventoryOrder.OrderDoesNotMatter | common/src/inventory.rs:94-138 | every order of the lists is bounded to the same exactly when volumes with the mount, and interfaces with the name, of a kept one are the same after cutting, and the services are as said |
| InventoryOrder.CaseDecides | common/src/inventory.rs:110-119 | two services whose names differ only in case stay in the order they came in |
| InventoryOrder.RepeatCounts | common/src/inventory.rs:110-119 | two services of one name and one of another that agrees in lower case and in 200 characters: three or two are left |
| Sums.ParseSums | common/src/hub_release.rs:101-113 | the loop gives the map the lines say, or the first line that isn't one |
| Sums.SumsAre | common/src/hub_release.rs:101-113 | a list is read exactly when each line is one; the map has the names of the lines, each with the hash of the last line that names it |
| SumsLaws.LineIsRead | common/src/hub_release.rs:105-109 | a line is one exactly when it is 64 hex digits in any case, two spaces, and a name that is no path |
| SumsLaws.FirstBadLine | common/src/hub_release.rs:103-109 | the first line that is not one is named |
| SumsLaws.HashInAnyCase | common/src/hub_release.rs:110 | a line whose hash is written in any case lists it in lower case |
| SumsLaws.SumsRoundTrip | blentinelmake/src/hub_release.rs:86-95 | the list of some files reads back as their names and hashes exactly when every name is plain, on one line, and doesn't end in a carriage return |
| SumsLaws.WrittenByName | blentinelmake/src/hub_release.rs:86-95 | files are listed by name, whatever order they come in |
| SumsLaws.ReturnIsLost | common/src/hub_release.rs:101-113 | the file `a` with a carriage return after it is listed, and read as `a` |
| Binaries.Counting | blentinelmake/src/hub_release.rs:283-288 | a list without repetitions within another is as long exactly when the other has no repetitions and no more elements |
| Binaries.CountDecides | blentinelmake/src/hub_release.rs:263-288 | once every entry is listed and matches, the number of lines decides whether the folder is what its list says |
| Binaries.ReadBinaries | blentinelmake/src/hub_release.rs:259-292 | succeeds exactly when each other entry is a binary with the listed hash and the lines name just these, none twice; gives them by name, or says what is wrong |
| Binaries.HashesAreListed | common/src/hub_release.rs:92-95 | in a folder that is read the hash of every other entry is, but for case, the one that the last line with its name gives |
| Binaries.WrittenExactly | blentinelmake/src/hub_release.rs:220-292 | a folder is read against a written list exactly when its other entries are binaries with the names of the listed files, every one of them, and the same hashes |
| Binaries.ChangedIsRefused | blentinelmake/src/hub_release.rs:277 | so a binary that was changed since, and has another hash, is refused |
| Binaries.RefusedExactly | blentinelmake/src/hub_release.rs:259-292 | a folder can be refused exactly when it is not what its list says |
| Binaries.WrittenIsExact | blentinelmake/src/hub_release.rs:220-253 | a folder of binaries with the list written for them is read |
| Routing.FindMatching | hub/src/model.rs:1352-1370 | the loop gives the matching rules up to the first that stops |
| Routing.MatchesExactly | hub/src/model.rs:1334-1347 | a rule matches exactly the alerts that none of its lists excludes: of companies, of sites with their company, of kinds, of kinds of checks |
| Routing.EachListCounts | hub/src/model.rs:1334-1347 | one list each, with alerts that it does and does not exclude |
| Routing.UnmatchedNeverMatters | hub/src/model.rs:1349-1370 | a rule that does not match never matters, nor does it stop those after it |
| Routing.AddAll | hub/src/model.rs:1373-1380 | the loop adds what isn't there yet, in order |
| Routing.Route | hub/src/model.rs:1384-1394 | the fold gives the channels of those rules, each where it first stands |
| Routing.RoutedIs | hub/src/model.rs:1382-1394 | a channel is routed to exactly when a matching rule before the stop names it; once; in the order in which those rules first name them |
| Routing.RulesAfterStop | hub/src/model.rs:1349-1370 | rules after one that matches and stops never matter |
| Routing.FindFollowUp | hub/src/model.rs:1408-1432 | the loop gathers reminders and escalations from the same rules |
| Routing.LeastGathered | hub/src/model.rs:1396-1432 | nothing is gathered exactly when no rule asks; else the least of their minutes |
| Routing.ChannelsGathered | hub/src/model.rs:1396-1432 | with exactly the channels of the rules that ask |
| Routing.GatheredOnce | hub/src/model.rs:1417-1428 | each channel once exactly when the first rule that asks names each of its own once |
| Routing.ReminderTwice | hub/src/model.rs:1408-1485 | a rule that names a channel twice is accepted; the alert goes to the channel once, its reminders twice |
| Routing.AcceptedMinutes | hub/src/model.rs:1434-1485 | how many minutes a rule may wait to remind and to escalate, and that it names channels there are |
| Routing.RemindersWithinRoute | hub/src/model.rs:1408-1432 | reminders go only to channels the alert goes to |
| Thresholds.OneDecides | hub/src/model.rs:608-630 | each limit is as the lowest level that sets it says, `off` included, else built in |
| Thresholds.JudgedMonotonically | hub/src/model.rs:355-366 | a value moved in the metric's bad direction is never judged better, for any levels |
| Thresholds.JudgedByDeciders | hub/src/model.rs:659-697 | the status in terms of the two levels that decide |
| Thresholds.StatusExactly | hub/src/model.rs:659-697 | for every result, metric and limits: down exactly when the probe says so or the measured value reaches the down limit, a warning exactly when it is not down and the value reaches the warning limit |
| Thresholds.NoBetterIsNoBetter | hub/src/model.rs:659-697 | a result of no better health, with a value that is no better, is never judged better |
| Thresholds.ReachedAt | hub/src/model.rs:355-366 | a limit is reached at its value, from above for the days of a certificate and from below for all else |
| Thresholds.JudgedByBuiltIn | hub/src/model.rs:530-549 | the status of any value of each metric by the built-in limits |
| Thresholds.WarningIsPossible | hub/src/model.rs:608-697 | some value is judged a warning exactly when the deciding warning limit is on and isn't itself down |
| Thresholds.WarningComesFirst | hub/src/model.rs:431-456 | where one validated level decides both limits, reaching down implies reaching warning, and some value is only a warning |
| Thresholds.AcceptedExactly | hub/src/model.rs:336-351 | the largest limit accepted for each metric |
| Thresholds.BothAccepted | hub/src/model.rs:446-454 | two limits are accepted exactly when each is and the warning comes strictly first |
| Thresholds.BuiltInIsValid | hub/src/model.rs:530-549 | the built-in limits pass validation for every metric |
| Thresholds.LevelsMayHideWarnings | hub/src/model.rs:608-630 | two valid levels under which no value is a warning |
| Calendar.TickCounts | hub/src/model.rs:794-802 | the count of minutes goes up by one with every tick of the Gregorian calendar's clock |
| Calendar.MonthLengths | hub/src/model.rs:795-802 | the lengths of the twelve months |
| Calendar.DaysToYearAre | hub/src/model.rs:795-800 | the days since 2000: 365 a year, and one for each year that can be divided by 4 but not by 100 unless by 400 |
| Calendar.FourHundredYears | hub/src/model.rs:795-800 | 1461 days are the first four years, and 146097 any 400 |
| Calendar.BeforeIsEarlier | hub/src/model.rs:784-804 | the order of the parsed tuples is the order of elapsed minutes |
| Calendar.ParsedIsDateTime | hub/src/model.rs:785-804 | what is accepted is a minute of the calendar, of the years 2000 to 2999 |
| Calendar.DateTimeParses | hub/src/model.rs:784-804 | every such minute reads from its usual text, with a `T` or with a space |
| CalendarForms.UsualExactly | hub/src/model.rs:777-804 | an accepted text is, but for white space around it, the documented text of the minute it says exactly when it has 16 characters, dashes at 4 and 7, a digit at 9, a `T` or space at 10, a colon at 13, and no plus |
| CalendarForms.OtherDigits | hub/src/model.rs:777-804 | `2026-1-5T1:030` is read |
| CalendarForms.MoreAfterDay | hub/src/model.rs:785-793 | `2026-10-14-xT10:30` is read |
| CalendarForms.PlusBefore | hub/src/model.rs:785-793 | `+2026-10-14T10:30` is read |
| CalendarForms.SecondBlank | hub/src/model.rs:777-794 | so is `2026-10-14  10:30`, with two spaces |
| Calendar.OnceHasLength | hub/src/model.rs:844-864 | a window set once is accepted exactly when both texts are dates and times and the clock gets from its start to its end in at least one tick |
| Slugs.Slugify | hub/src/model.rs:2365-2375 | the loop gives the words of the lower-cased name joined by dashes, cut to 64 characters |
| Slugs.SlugIsValid | hub/src/model.rs:2362-2386 | every slug is empty or a valid one, and has no two dashes in a row |
| Slugs.SlugIsEmpty | hub/src/model.rs:2365-2375 | it is empty exactly when the lower-cased name has no ASCII letter or digit |
| Slugs.LettersStay | hub/src/model.rs:2365-2375 | before the cut a slug has all ASCII letters and digits of the lower-cased name in their order, and besides only dashes |
| Slugs.AcmeLtd | hub/src/model.rs:2362-2364 | the documented example: `ACME Ltd.` becomes `acme-ltd` |
| Slugs.ValidExactly | hub/src/model.rs:2377-2386 | a valid ID is 1 to 64 digits, small letters, dashes, underscores and dots, the first a digit or a letter |
| Slugs.SlugTwice | hub/src/model.rs:2365-2375 | the slug of a slug is the slug exactly when the joined words aren't longer than 64 characters with a dash as the 64th |
| Slugs.DashOnlyAtCut | hub/src/model.rs:2374 | which is exactly when a slug doesn't end in a dash |
| Slugs.DashIsLost | hub/src/model.rs:2365-2375 | 63 letters, a blank and a letter: the slug ends in a dash, and its own slug is another |
| SignedAnswers.DomainsApart | common/src/poll.rs:44-45 | what is signed for different kinds of messages differs, and says which message it is |
| SignedAnswers.InvKept | common/src/ack.rs:107-128 | every step keeps: each signature was made by its key's holder for a message of its kind |
| SignedAnswers.AcceptedAckWasSealed | common/src/ack.rs:132-181 | in every run, an ack that a probe accepts was sealed before by a holder of one of its pinned keys, as an ack, for exactly the report it sent |
| SignedAnswers.AcceptedAnswerWasSealed | common/src/poll.rs:161-174 | the same of an answer to a poll |
| SignedAnswers.AcceptedPollWasMade | common/src/poll.rs:112-135 | a poll that a hub accepts was made by the probe it names, as a poll, within 300 seconds of the hub's clock |
| SignedAnswers.RunIsJustified | common/src/ack.rs:10-20 | in every run, whatever was accepted is justified by what was sent |
| SignedAnswers.SealedAckOpens | common/src/ack.rs:107-181 | what a hub seals opens as it is for a probe that pins its key, exactly when it answers the report the probe sent |
| SignedAnswers.SealedAnswerOpens | common/src/poll.rs:152-174 | so does an answer, exactly for the poll it answers |
| SignedAnswers.MadePollIsOk | common/src/poll.rs:112-135 | what a probe signed as a poll is accepted exactly in versions 9 and 10 and within 300 seconds of the hub's clock, either way |
| SignedAnswers.PollNeedsSignature | common/src/poll.rs:128-130 | and never without its probe's signature over just this poll |
| SignedAnswers.RefusedExactly | common/src/ack.rs:132-181 | whatever is opened is refused exactly if the box does not open, is shorter than a signature, is signed by no pinned key over domain and text, or does not read, each with its own error |

## Left out

- Snmp.ValueText: the order in which `meanings_text` sorts keys is any order in the model; what Rust's sort does with a comparison that is not an order (it may stop the program) is not modelled.
- SnmpRoundTrip.ValuesRoundTrip: floats are abstract: a finite one is taken to read back as printed, and the small whole divisors to be finite and not zero.
- EnrollmentLaws.NeighboursCaught: more than five neighbouring symbols, or several far apart, are not covered.
- SumsLaws.SumsRoundTrip: SHA-256 is any function to 64 lower-case hex digits, and names are texts, not the bytes of a file system.
- Binaries.ReadBinaries: the folder is a list of entries with distinct names; read errors, and names that aren't Unicode, are not modelled.
- Thresholds.JudgedByDeciders: values and limits are real numbers, so NaN and rounding are not modelled; neither is the wording of the reason.
- Slugs.Slugify: `char::to_lowercase` is any function that is ASCII's on ASCII and gives no upper-case ASCII letter.
- Inventory.Inventory.Bound: `str::to_lowercase` is any function, and reading an IP address any predicate.
- SignedAnswers.RunIsJustified: signatures are ideal, the hash is free of collisions, and JSON text of an object or array starts with white space, a brace or a bracket; that an accepted answer is not accepted a second time is not claimed.
- The weekly and monthly schedules of `Schedule::validate`, and the per-kind checks of `CheckSpec::validate`: each is read from one branch.
- Reading the number of workspace members (TOML), and the reading and writing of files around stamping: input and output.
- Manifests, platforms and the signing of releases: library calls and lookups.
- The wording of errors, except where the SNMP parser repeats them for the person.
- The hub's services, storage, HTTP interface and web pages, and the probe's own loop: not part of this model.
