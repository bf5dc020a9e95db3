# Verified model of hyundai_kia_connect_api

This project models the parts of the library that carry real logic, and proves what they
promise, for all inputs and all runs.

**The GSPA stamp.** `Bits` treats Python's non-negative integers as bit strings: exclusive or,
and the product with a list of columns over GF(2). `Layers` holds the sixteen-byte state and the
three kinds of layer a block function is made of. `Cipher` is the table-driven block function,
with the round written in place on an array, and `CipherBytes` spells it out byte by byte;
`CipherInjective` and `CipherTables` say exactly when it is a permutation, first in its column and
byte maps, then in the ranks of its parameter tables. `Cfb` is CFB-128 over an arbitrary block
function and the loop that computes it. `Numerals`, `Utf8` and `Base64` are the encodings around
it, `Stamp` the header and the time-stamped id, each with a reader. The parameter tables are
arbitrary tables of the right shape (`Cipher.Valid`): group keys total over sixteen entries a
round, bytes below 256, words below 2^32, four masks of 256 words where a mask is given.

**Scheduled charging and climate.** `Schedule` has the options object with its "None means leave
unchanged" filler, which mutates the caller's objects and may meet one object in both departure
slots. `Vehicles` has the vehicle object. `Wire` prints and parses the twelve-hour times and the
temperatures, builds the three request payloads and decodes a schedule back into a vehicle.
`Polling` and `Protocol` are the writes themselves over an arbitrary server: replies and header
failures are functions of how many requests came before, delays of how many delays there were,
each request is logged with what the server said to it (`Polling.Session.Valid`), and the
contracts speak about that log. `CanadaPolling` is the recursive poll of the Canadian API.

**Smaller cores.** `Trips` and `TripViews` (month and day views, odometer distances), `TripCache`
(the bounded detail cache), `LastUpdated` (the timestamp setter), `WeekShift` (the UTC shift of a
weekly reservation), `HexTemp` (temperature codes).

Where the code does less than its documentation says, the model follows the code:
`Schedule.GuardLetsOneDefaultThrough` and `Schedule.NoTemperatureDefaultedIff` (the temperature
guard), `Stamp.ColonsCollide` and `Stamp.StampReadBackIff` (colons in the id),
`LastUpdated.CanOvershoot` and `LastUpdated.RunningMaximumIff` (the offset correction),
`Protocol.ValueErrorAfterPost` and `Protocol.ValueErrorIff` (a ValueError does not mean that
nothing was sent), `Wire.LiteralEchoRaises` and `Wire.ResendIff` (departure temperatures are
written as decimals and read as codes), `Trips.AverageIsNoMean` and `Trips.AverageIsMeanIff`
(average speeds), `HexTemp.RoundTripsIff` (negative indices).

Conventions: errors are `Result` values; a Python `float` is a `real`; `datetime.time` is a
datatype; clocks and random bytes are arguments. Run `dafny verify dfyconfig.toml`.

## Model

| member | source | states |
|---|---|---|
| Bits.ApplyColumns | hyundai_kia_connect_api/gspa/cipher_keys.py:52-71 | the bit loop of `_mat` and `_lapply` ends, never runs past its columns, and computes the exclusive or of the columns at the set bits |
| Bits.MatLinear | hyundai_kia_connect_api/gspa/cipher_keys.py:52-71 | the product is GF(2)-linear for all columns and arguments |
| Bits.MatUnit | hyundai_kia_connect_api/gspa/cipher_keys.py:52-71 | bit i alone gives column i, so with linearity the product is fixed |
| Bits.MatSplit | hyundai_kia_connect_api/gspa/cipher_keys.py:52-71 | column lists laid side by side split the argument at that bit |
| Bits.KernelDecidesInjectivity | hyundai_kia_connect_api/gspa/cipher_keys.py:52-71 | the product is injective on its width exactly when only zero is sent to zero |
| Layers.SrTable | hyundai_kia_connect_api/gspa/cipher_keys.py:11 | the row-shift table is 5k mod 16 |
| Layers.ShiftRowsInjective | hyundai_kia_connect_api/gspa/cipher_keys.py:194 | the gather reads every byte once, so it loses nothing |
| Layers.ColumnsInjectiveIff | hyundai_kia_connect_api/gspa/cipher_keys.py:196-215 | a layer of four column maps is injective exactly when each of the four is |
| Layers.BytesInjectiveIff | hyundai_kia_connect_api/gspa/cipher_keys.py:227-230 | the same for the sixteen byte maps of the last layer |
| Layers.InjectiveIsSurjective | hyundai_kia_connect_api/gspa/cipher_keys.py:217-230 | an injective map of sixteen-byte blocks reaches every block |
| Cipher.WriteColumn | hyundai_kia_connect_api/gspa/cipher_keys.py:196-214 | one turn of the column loop writes that column's map and leaves the other twelve bytes |
| Cipher.ColumnStep | hyundai_kia_connect_api/gspa/cipher_keys.py:196-214 | no column reads a byte that another column has written |
| Cipher.Round | hyundai_kia_connect_api/gspa/cipher_keys.py:186-215 | the in-place round equals the simultaneous map of the four columns of the row-shifted state |
| Cipher.EncryptBlock | hyundai_kia_connect_api/gspa/cipher_keys.py:217-230 | the loops over phases and rounds compute the block function; any other length than 16 is a ValueError |
| CipherBytes.RoundBytes | hyundai_kia_connect_api/gspa/cipher_keys.py:186-215 | the four bytes of a column after a round, from the literal row-shift table and the column's word, highest byte first |
| CipherBytes.ColumnWordMeans | hyundai_kia_connect_api/gspa/cipher_keys.py:199-212 | that word: the added s-boxes, the added linear lookups of the sum's bytes, and the mask |
| CipherBytes.MaskWordMeans | hyundai_kia_connect_api/gspa/cipher_keys.py:164-184 | the mask word: one entry of each of the four tables of the round and column, or zero |
| CipherBytes.EncryptBytes | hyundai_kia_connect_api/gspa/cipher_keys.py:217-230 | each byte of the result: all rounds of all phases in order, each under its own and its global number, then the byte that the literal row-shift table names through its final entry |
| CipherInjective.EncryptPermutesIff | hyundai_kia_connect_api/gspa/cipher_keys.py:186-230 | the block function is injective exactly when every column map of every round, masks included, and every final byte map is, and is then a permutation |
| CipherTables.SboxBetweenAffineMaps | hyundai_kia_connect_api/gspa/cipher_keys.py:151-158 | an s-box entry is the shared s-box between two affine maps of bytes, then one affine map into words |
| CipherTables.ByteBranchInjective | hyundai_kia_connect_api/gspa/cipher_keys.py:151-157 | the byte branch is injective when M1 and M2 have trivial kernel and S is injective |
| CipherTables.CoreInjectiveIff | hyundai_kia_connect_api/gspa/cipher_keys.py:151-155 | the byte part of an entry is injective exactly when S permutes the bytes and M1 and M2 have trivial kernel |
| CipherTables.FinalByteInjectiveIff | hyundai_kia_connect_api/gspa/cipher_keys.py:227-230 | a byte map of the last layer is injective exactly when in addition the low bytes of its columns are of full rank |
| CipherTables.LookupIsAffine | hyundai_kia_connect_api/gspa/cipher_keys.py:151-158 | either branch of an s-box lookup is an affine map of the entry's byte part |
| CipherTables.InterIsAffine | hyundai_kia_connect_api/gspa/cipher_keys.py:199-203 | `inter` is one affine map, over thirty-two columns, of the four packed byte parts, whichever branch each entry takes |
| CipherTables.LinearLayerIsAffine | hyundai_kia_connect_api/gspa/cipher_keys.py:160-162 | the four linear lookups together are one affine map of the 32-bit word `inter` |
| CipherTables.ColumnInjectiveIff | hyundai_kia_connect_api/gspa/cipher_keys.py:196-214 | without a mask a column is injective exactly when S permutes the bytes, its four entries' matrices are of full rank, and so are its two lists of thirty-two columns |
| CipherTables.BlockPermutationIff | hyundai_kia_connect_api/gspa/cipher_keys.py:217-230 | so without masks `encrypt_block` is a permutation exactly when S permutes the bytes and every table of every round and of the last layer is of full rank |
| CipherTables.MaskIsAddedOnce | hyundai_kia_connect_api/gspa/cipher_keys.py:208-212 | the mask word is added once, to the word that leaves the linear layer |
| CipherTables.MaskDifference | hyundai_kia_connect_api/gspa/cipher_keys.py:164-184 | one byte of a column changes the mask word by what that byte's own table says, and by nothing else |
| CipherTables.ZeroMasksChangeNothing | hyundai_kia_connect_api/gspa/cipher_keys.py:164-184 | all-zero mask tables encrypt exactly like no mask tables |
| CipherTables.ZeroMasksAreNone | hyundai_kia_connect_api/gspa/cipher_keys.py:164-184 | and count as no masks in the conditions above |
| Cfb.EncryptCfb | hyundai_kia_connect_api/gspa/cipher_keys.py:232-243 | the feedback loop computes CFB-128 for every IV and length, the final slice drops nothing, and an IV of another length is a ValueError |
| Cfb.EncryptEquations | hyundai_kia_connect_api/gspa/cipher_keys.py:236-242 | each ciphertext byte is the standard's: plaintext xor the image of the block before it |
| Cfb.DecryptEncrypt | hyundai_kia_connect_api/gspa/cipher_keys.py:232-243 | a decryptor returns the plaintext, a partial last block included |
| Cfb.EncryptDecrypt | hyundai_kia_connect_api/gspa/cipher_keys.py:232-243 | and every byte string is the ciphertext of its decryption |
| Cfb.EncryptPrefix | hyundai_kia_connect_api/gspa/cipher_keys.py:232-243 | the ciphertext of a prefix is the prefix of the ciphertext |
| Cfb.EncryptSplit | hyundai_kia_connect_api/gspa/cipher_keys.py:232-243 | whole blocks stream: go on with the last sixteen ciphertext bytes as IV |
| Cfb.EncryptTwice | tests/gspa/test_kia_cipher.py:31-39 | encrypting twice under one IV gives back the first block, hence a short text |
| Numerals.ParsePrintInt | hyundai_kia_connect_api/gspa/cipher_keys.py:260 | a printed integer of either sign parses back and holds no colon |
| Numerals.DigitTable | hyundai_kia_connect_api/utils.py:196-207 | the digits of either case, and what they are worth |
| Utf8.DecodeEncode | hyundai_kia_connect_api/gspa/cipher_keys.py:260 | `encode()` is undone by a UTF-8 decoder for every string |
| Utf8.Vectors | hyundai_kia_connect_api/gspa/cipher_keys.py:260 | the bytes of one character of each length |
| Utf8.Shape | hyundai_kia_connect_api/gspa/cipher_keys.py:260 | the first byte tells the length, and a character below 128 is its own byte |
| Base64.DecodeEncode | hyundai_kia_connect_api/gspa/cipher_keys.py:261 | `b64encode` is undone for every byte string, and writes no colon |
| Base64.GroupMeans | hyundai_kia_connect_api/gspa/cipher_keys.py:261 | a group of bytes is written as the standard's characters of its bits, six at a time from the highest, and padded |
| Base64.EncodeGroups | hyundai_kia_connect_api/gspa/cipher_keys.py:261 | group i of the text is group i of the bytes |
| Base64.AlphabetTable | hyundai_kia_connect_api/gspa/cipher_keys.py:261 | the sixty-four characters in the standard's order |
| Stamp.ComputeXStamp | hyundai_kia_connect_api/gspa/cipher_keys.py:245-261 | regions 4 and 5 are refused, unknown ones too, missing id and time are filled in, and the stamp is the encoded payload |
| Stamp.RegionsMean | hyundai_kia_connect_api/gspa/cipher_keys.py:252-261 | regions 4 and 5 are not supported, any but 1, 2 and 9 is unknown, and these encrypt `tsid:epoch:user_id` under their own vector |
| Stamp.IvBytes | hyundai_kia_connect_api/gspa/cipher_keys.py:15-21 | the bytes of the three vectors |
| Stamp.StampReadBackIff | hyundai_kia_connect_api/gspa/cipher_keys.py:245-261 | a reader recovers id, time and user from a stamp exactly when the id holds no colon |
| Stamp.StampDeterminesInputs | hyundai_kia_connect_api/gspa/cipher_keys.py:245-261 | equal stamps were made from equal inputs |
| Stamp.ColonsCollide | hyundai_kia_connect_api/gspa/cipher_keys.py:260 | a colon in the id lets two different inputs share a stamp |
| Stamp.TsidReadBack | hyundai_kia_connect_api/gspa/cipher_keys.py:264-278 | every id is free of colons, and padding and decoding it gives its bytes |
| Stamp.TsidLayout | hyundai_kia_connect_api/gspa/cipher_keys.py:264-278 | these are five bytes of milliseconds since 2020, highest first, the node, and the counter's two nibbles exchanged with bits 1 and 2 set; ids exist exactly for times that fit eight bytes, and do not end in padding |
| Stamp.TsidEqualIff | hyundai_kia_connect_api/gspa/cipher_keys.py:264-278 | two ids are equal exactly when their times agree modulo 2^40 milliseconds, their nodes are the same, and their counters agree in bits 0 to 4 and bit 7 |
| Stamp.LastByteIff | hyundai_kia_connect_api/gspa/cipher_keys.py:273 | the last byte tells counters apart in bits 0 to 4 and 7 only |
| Schedule.FillOptionValue | hyundai_kia_connect_api/ApiImpl.py:225-242 | explicit value, else vehicle value, else default with its label noted |
| Schedule.FillDepartureOptions | hyundai_kia_connect_api/ApiImpl.py:245-310 | the departure object ends up as the fill of its old fields, labels in order, empty days as the sentinel |
| Schedule.FillClimateFields | hyundai_kia_connect_api/ApiImpl.py:362-389 | missing departures are created, both are filled, the first is mirrored; one object in both slots is filled once |
| Schedule.FillScheduleOptions | hyundai_kia_connect_api/ApiImpl.py:313-394 | the whole new state of the options object for any scopes, and the labels of the warning |
| Schedule.FromVehicle | hyundai_kia_connect_api/ApiImpl.py:134-145 | a fresh object holding the fill of empty options |
| Schedule.FromVehicleIsTheVehicle | hyundai_kia_connect_api/ApiImpl.py:134-145 | for a vehicle that reports everything these options are its settings |
| Schedule.NothingKnown | hyundai_kia_connect_api/ApiImpl.py:225-310 | when nobody knows anything, everything is off, at midnight, on no day, at 21 degrees |
| Schedule.FieldsFollowTheOrder | hyundai_kia_connect_api/ApiImpl.py:225-389 | every field of a requested scope is the departure's own value, else the top level's, else the vehicle's, else the default, and every other field stays; one object in both slots follows the first departure's vehicle state |
| Schedule.FillCompletes | hyundai_kia_connect_api/ApiImpl.py:313-389 | every field of a requested scope is set, the other scope is untouched |
| Schedule.ExplicitSurvives | hyundai_kia_connect_api/ApiImpl.py:319-325 | explicit values survive, empty days become [9] |
| Schedule.TopLevelIsShorthand | hyundai_kia_connect_api/ApiImpl.py:289-310 | top-level climate fields act as if written into each departure that lacks them |
| Schedule.FillIdempotent | hyundai_kia_connect_api/ApiImpl.py:313-389 | a second fill changes nothing and misses nothing |
| Schedule.FillScopesCommute | hyundai_kia_connect_api/ApiImpl.py:313-389 | charge then climate, climate then charge and both at once agree |
| Schedule.FillKeepsScopes | hyundai_kia_connect_api/ApiImpl.py:148-178 | filling the active scopes activates no other |
| Schedule.MissingIff | hyundai_kia_connect_api/ApiImpl.py:237-242 | a label is listed, and then once, exactly when its field is filled and neither caller nor vehicle knows it; a shared object has the first departure's labels only |
| Schedule.MissingIsUnknown | hyundai_kia_connect_api/ApiImpl.py:332-394 | the labels come in the order in which the fields are filled |
| Schedule.NothingMissingIff | hyundai_kia_connect_api/ApiImpl.py:390-394 | there is no warning exactly when no default reached the result |
| Schedule.GuardRefusesIff | hyundai_kia_connect_api/ApiImpl.py:193-222 | the guard refuses exactly when every departure would get the default temperature and, for a shared object, the vehicle knows no second temperature |
| Schedule.GuardLetsOneDefaultThrough | hyundai_kia_connect_api/ApiImpl.py:193-222 | it lets one departure be reset to 21 degrees when only the other's temperature is known |
| Schedule.NoTemperatureDefaultedIff | hyundai_kia_connect_api/ApiImpl.py:193-222 | no temperature is defaulted exactly when there is a top-level one or each departure object has its own |
| Schedule.SharedFillIff | hyundai_kia_connect_api/ApiImpl.py:362-381 | one object in both slots is harmless exactly when each field is given, in it or on the top level, or the two vehicle states resolve alike |
| Schedule.SharedFillDiffers | hyundai_kia_connect_api/ApiImpl.py:362-381 | an empty object in both slots gives the second departure the first one's days |
| Wire.ParsePrintTime | hyundai_kia_connect_api/ApiImplType1.py:228-250 | a printed time reads back to the minute, midnight and noon included |
| Wire.PrintTimeMeans | hyundai_kia_connect_api/ApiImplType1.py:1594-1595 | a printed time is four digits, the hour from 01 to 12 and the minute, with section 1 from noon on |
| Wire.TimeRoundTripIff | hyundai_kia_connect_api/ApiImplType1.py:1594-1595 | the round trip is the identity exactly on whole minutes |
| Wire.ParseClock | hyundai_kia_connect_api/ApiImplType1.py:228-250 | what any four digits with a minute below sixty read as: nothing for hour 0, the section's half of the day up to 12, the hour itself up to 23 |
| Wire.ParseCarry | hyundai_kia_connect_api/ApiImplType1.py:236-238 | minutes past sixty are carried into the hour |
| Wire.ParseUnset | hyundai_kia_connect_api/ApiImplType1.py:229-233 | a missing time, an empty one and zeros are no time |
| Wire.WireTemperatureStable | hyundai_kia_connect_api/ApiImplType1.py:1570-1576 | a sent Celsius temperature is on the half-degree grid from 17 to 27, nearest inside it and clamped outside, and is sent again unchanged |
| Wire.ReadPrintTenths | hyundai_kia_connect_api/ApiImplType1.py:1580 | the printed temperature names its sign and its tenths |
| Wire.PrintTenthsMeans | hyundai_kia_connect_api/ApiImplType1.py:1580 | it is the nearest tenth, with a point before its last digit |
| Wire.FlatSaysTheSame | hyundai_kia_connect_api/ApiImplType1.py:1658-1719 | the two flat payloads say what the combined one says, with the off-peak flags exchanged |
| Wire.SlotsMean | hyundai_kia_connect_api/ApiImplType1.py:1588-1602 | what the fields of a departure's slot say in either request |
| Wire.RequestsMean | hyundai_kia_connect_api/ApiImplType1.py:1604-1621 | what the three requests say about charging |
| Vehicles.Vehicle.SetFirstDepartureTemperature | hyundai_kia_connect_api/Vehicle.py:764-780 | the setter stores the temperature, None for a missing or unparsable one, and the unit if there is one |
| Wire.UpdateSchedule | hyundai_kia_connect_api/KiaUvoApiEU.py:971-1143 | the decoder's assignments give the vehicle exactly the decoded schedule, temperatures and units included, or what had been read when a bad temperature raised |
| Wire.DecodeCompletesIff | hyundai_kia_connect_api/KiaUvoApiEU.py:1024-1143 | the update completes exactly when both temperatures are missing or codes in the table with a known unit; otherwise the first bad one's error cuts it, and defrost, off-peak and charging stay as they were |
| Wire.FlagsMean | hyundai_kia_connect_api/KiaUvoApiEU.py:1069-1143 | off-peak only for flag 2, not for 1, charging for flag 1, not for 0, and as it was for any other |
| Wire.TableMeans | hyundai_kia_connect_api/KiaUvoApiEU.py:1024-1068 | the ends of the temperature table, indices from its end, and the units |
| Wire.CodeReadableIff | hyundai_kia_connect_api/KiaUvoApiEU.py:89 | the code of index n is read as 14 + n / 2 degrees up to index 35, and raises an IndexError from there on |
| Wire.ReportableIff | hyundai_kia_connect_api/KiaUvoApiEU.py:1024-1045 | some code names a temperature exactly when it is a half degree from 14 to 31.5 |
| Wire.WriteThenRead | hyundai_kia_connect_api/ApiImplType1.py:1588-1621 | the combined payload read back by the decoder gives the written flags, days and times to the minute, and the temperatures and the unit that the codes name |
| Wire.LiteralEchoRaises | hyundai_kia_connect_api/KiaUvoApiEU.py:1024-1034 | a server that reports the temperature text as it was written makes the decoder raise a ValueError, and nothing after the first temperature is read |
| Wire.ResendsWhen | hyundai_kia_connect_api/ApiImplType1.py:1553-1621 | write, read, write again through `from_vehicle` sends the same payload exactly when the codes name temperatures that are sent alike |
| Wire.ResendIff | hyundai_kia_connect_api/ApiImplType1.py:1553-1621 | and there are such codes exactly when both sent temperatures are half degrees of the table: always in Celsius |
| Polling.FindStatus | hyundai_kia_connect_api/ApiImplType1.py:1505-1522 | the loop over the records computes the action's status |
| Polling.StatusOfFirst | hyundai_kia_connect_api/ApiImplType1.py:1505-1517 | it is the status of the first record that tells anything about the action |
| Polling.UnknownIff | hyundai_kia_connect_api/ApiImplType1.py:1519-1522 | and unknown exactly when none does |
| Polling.StatusIff | hyundai_kia_connect_api/ApiImplType1.py:1505-1522 | success, fail, non-response and a null result mean succeeded, failed, timed out and pending, for the first record of the action that has one of them |
| Polling.ReadStatusRetried | hyundai_kia_connect_api/ApiImplType1.py:93-102 | one read; after a device-id error a registration and one more read |
| Polling.PollLoop | hyundai_kia_connect_api/ApiImplType1.py:1478-1493 | the loop ends after at most ceil(timeout / 5) reads, and one more for each re-registration, gives the first status that is not pending, and times out only once the clock has passed the timeout and the last read said pending |
| Polling.PollLimitMeans | hyundai_kia_connect_api/ApiImplType1.py:1478-1486 | that is the least number of five-second turns that reach the timeout |
| Polling.Poll | hyundai_kia_connect_api/ApiImplType1.py:1474-1493 | a timeout below one second is an error, and the result is never pending |
| Polling.PollRetried | hyundai_kia_connect_api/ApiImplType1.py:1463-1493 | after a device-id error one registration and one more poll, each with its bound on reads and its clock |
| Polling.RetriedPollOutcome | hyundai_kia_connect_api/ApiImplType1.py:1463-1493 | cut or not, the outcome is that of one poll over the whole log |
| Protocol.PrepareFlat | hyundai_kia_connect_api/ApiImplType1.py:1651-1719 | only active scopes are filled, the guard comes before the climate fill, and the payloads are those of the plan |
| Protocol.PrepareCombined | hyundai_kia_connect_api/ApiImplType1.py:1550-1621 | guard, fill of both scopes, one payload |
| Protocol.PlanIff | hyundai_kia_connect_api/ApiImplType1.py:1538-1553 | which options are refused, with which error, and which form the write has otherwise |
| Protocol.PlanSays | hyundai_kia_connect_api/ApiImplType1.py:1550-1719 | field by field, the requests say what the caller gave, else what the vehicle reports, else the default |
| Protocol.CarIsTheVehicle | hyundai_kia_connect_api/ApiImpl.py:245-278 | the filler reads each departure's own fields of the vehicle |
| Protocol.SendFlat | hyundai_kia_connect_api/ApiImplType1.py:1721-1779 | charge, poll of its record, climate, in that order and each only after the one before succeeded, with every error's cause; a busy channel is reported only when a record said so or after fifteen seconds |
| Protocol.Attempt | hyundai_kia_connect_api/ApiImplType1.py:1524-1629 | one run sends what the plan for the caller's options says and leaves the options filled |
| Protocol.ScheduleChargingAndClimate | hyundai_kia_connect_api/ApiImplType1.py:84-104 | under the retry decorator: one attempt, or two of the same plan around one registration |
| Protocol.RetrySendsTheSame | hyundai_kia_connect_api/ApiImplType1.py:93-102 | the options that the first attempt mutated make the second one pick the same endpoints and payloads |
| Protocol.EveryPostIsPlanned | hyundai_kia_connect_api/ApiImplType1.py:1624-1767 | in either attempt every post carries the planned payload |
| Protocol.AtMostTwoPosts | hyundai_kia_connect_api/ApiImplType1.py:93-102 | a call posts to each endpoint at most twice |
| Protocol.ClimateAfterSettledCharge | hyundai_kia_connect_api/ApiImplType1.py:1734-1767 | a two-scope call posts the climate scope only after a read whose first known result for the same attempt's charge action is success |
| Protocol.RefusedMeansSilent | hyundai_kia_connect_api/ApiImplType1.py:1540-1541 | a refused call sends nothing |
| Protocol.ScopesAreIndependent | hyundai_kia_connect_api/ApiImpl.py:148-178 | a two-scope call plans for each scope just what a call with that scope alone plans |
| Protocol.ValueErrorIff | hyundai_kia_connect_api/ApiImplType1.py:1538-1779 | a call ends in a ValueError exactly when it was refused or its last request's reply could not be decoded, and the log is empty exactly when it was refused |
| Protocol.UndecodableChargeReply | hyundai_kia_connect_api/ApiImplType1.py:1727-1731 | wherever the charge request of a call is answered with no JSON, the call ends in a ValueError with this one post in its log |
| Protocol.ValueErrorAfterPost | hyundai_kia_connect_api/ApiImplType1.py:1727-1731 | a whole call on a fresh session with such a server does so |
| Protocol.NoPostIff | hyundai_kia_connect_api/ApiImplType1.py:1538-1779 | a call posts nothing exactly when it was refused or each of its attempts failed to get its headers |
| Protocol.OutcomeOfAttempt | hyundai_kia_connect_api/ApiImplType1.py:1724-1779 | what each outcome tells: a busy channel is always a timed-out poll, an ended charge a failed or unknown one, and any other failure is the last request's |
| Protocol.FlatErrorsIff | hyundai_kia_connect_api/ApiImplType1.py:1734-1779 | each error of a flat call holds exactly when its cause is in the log: a refused climate request, a poll that timed out, or one that failed |
| Protocol.ReturnMeansAccepted | hyundai_kia_connect_api/ApiImplType1.py:1538-1779 | a call that returns had every scope the caller asked for accepted in its last attempt |
| CanadaPolling.CheckActionStatus | hyundai_kia_connect_api/KiaUvoApiCA.py:1196-1249 | at most floor(timeout / 10) + 1 levels whatever the clock does, the last answer decides, a timeout means a spent budget, and a synchronous call is never pending |
| CanadaPolling.AnswersMean | hyundai_kia_connect_api/KiaUvoApiCA.py:1213-1249 | what each answer means, and that a level's second post counts |
| CanadaPolling.SecondsMean | hyundai_kia_connect_api/KiaUvoApiCA.py:1240-1242 | elapsed whole seconds, with whole days lost |
| Vehicles.Vehicle.SetLastUpdatedAt | hyundai_kia_connect_api/Vehicle.py:526-545 | the new value from the old one and the assigned one, None included |
| Vehicles.Vehicle.AssignAll | hyundai_kia_connect_api/Vehicle.py:526-545 | a run of assignments folds them |
| LastUpdated.NeverDecreases | hyundai_kia_connect_api/Vehicle.py:532-545 | over any run the value never goes back |
| LastUpdated.AtLeastAll | hyundai_kia_connect_api/Vehicle.py:532-545 | and is at least everything assigned |
| LastUpdated.ComesFromARun | hyundai_kia_connect_api/Vehicle.py:532-545 | it is the start, an assigned time, or one plus its own offset |
| LastUpdated.RunningMaximum | hyundai_kia_connect_api/Vehicle.py:532-545 | with offsets of at most zero it is exactly the running maximum |
| LastUpdated.KeepsNewerIff | hyundai_kia_connect_api/Vehicle.py:542-544 | one assignment keeps the newer time exactly when the offset lifts no older one above the old value |
| LastUpdated.RunningMaximumIff | hyundai_kia_connect_api/Vehicle.py:532-545 | a whole run shows the running maximum after each assignment exactly when none of them is an older time that its offset lifts above that maximum |
| LastUpdated.FreshRun | hyundai_kia_connect_api/Vehicle.py:526-545 | the first assignment to a fresh vehicle is where its run starts |
| LastUpdated.CanOvershoot | hyundai_kia_connect_api/Vehicle.py:537-541 | east of Greenwich it can pass every assigned time |
| LastUpdated.NoneResets | hyundai_kia_connect_api/Vehicle.py:532-545 | assigning None forgets the past, so that any time is accepted next |
| TripCache.Api.GetDetailedTripInfo | hyundai_kia_connect_api/KiaUvoApiIN.py:578-631 | the cache holds exactly the last two hundred fetched keys in fetch order, and the result is that of an uncached fetch |
| TripCache.Api.Calls | hyundai_kia_connect_api/KiaUvoApiIN.py:578-631 | so over any sequence of calls every result is the uncached one |
| TripCache.LookupIff | hyundai_kia_connect_api/KiaUvoApiIN.py:592-594 | a hit is a stored key and gives its stored detail |
| TripCache.LastOfMeans | hyundai_kia_connect_api/KiaUvoApiIN.py:627-629 | the last entries, in their order |
| TripCache.UncachedMeans | hyundai_kia_connect_api/KiaUvoApiIN.py:585-625 | what a call without a cache gives |
| Trips.DayDeterminesMonth | hyundai_kia_connect_api/HyundaiBlueLinkApiUSA.py:872-904 | whatever the start strings, trips of one day are trips of one month |
| Trips.ShownWhere | hyundai_kia_connect_api/HyundaiBlueLinkApiUSA.py:872-904 | a trip that starts on "YYYY-MM-DD" is counted in the month view of exactly "YYYYMM", under "YYYYMMDD", and listed in the day view of exactly that day |
| Trips.OneTrip | hyundai_kia_connect_api/HyundaiBlueLinkApiUSA.py:866-994 | what a single trip shows in either view |
| Trips.ItemMeans | hyundai_kia_connect_api/HyundaiBlueLinkApiUSA.py:977-988 | a listed trip shows its clock time as "HHMMSS" and its own figures |
| Trips.InMonthConcat | hyundai_kia_connect_api/HyundaiBlueLinkApiUSA.py:871-875 | a month's trips are selected one by one, in order |
| Trips.OnDayConcat | hyundai_kia_connect_api/HyundaiBlueLinkApiUSA.py:945-949 | and a day's |
| TripViews.UpdateMonthTripInfo | hyundai_kia_connect_api/HyundaiBlueLinkApiUSA.py:845-916 | the accumulating loop computes the month view of the matching trips |
| TripViews.UpdateDayTripInfo | hyundai_kia_connect_api/HyundaiBlueLinkApiUSA.py:918-994 | the same for the day view and its trip list |
| TripViews.BumpDay | hyundai_kia_connect_api/HyundaiBlueLinkApiUSA.py:905-914 | the inner loop bumps the day's entry or appends one |
| Trips.TotalsAreSums | hyundai_kia_connect_api/HyundaiBlueLinkApiUSA.py:889-896 | a summary shows the sums over its trips and their highest top speed |
| Trips.AverageShrinks | hyundai_kia_connect_api/HyundaiBlueLinkApiUSA.py:898-901 | the shown average speed is divided anew with each trip: over n trips it is at most about twice the highest speed over n |
| Trips.AverageIsNoMean | hyundai_kia_connect_api/HyundaiBlueLinkApiUSA.py:898-901 | three trips at 30 are shown at 20 |
| Trips.AverageIsMeanIff | hyundai_kia_connect_api/HyundaiBlueLinkApiUSA.py:898-901 | for speeds of whole tenths, at least 0.3, the shown average is the mean exactly when there are at most two trips |
| Trips.SlowTripsMayShowTheMean | hyundai_kia_connect_api/HyundaiBlueLinkApiUSA.py:898-901 | the bound 0.3 cannot be dropped: 0.2, 0.2 and 0.3 show their mean |
| Trips.TwoTripsMayMissTheMean | hyundai_kia_connect_api/HyundaiBlueLinkApiUSA.py:898-901 | nor can the whole tenths: 10.04 and 10.1 do not |
| Trips.MonthIsSumOfDays | hyundai_kia_connect_api/HyundaiBlueLinkApiUSA.py:866-994 | the month's totals are the sums over its trips and over the day views of its day list |
| Trips.DayListIsExact | hyundai_kia_connect_api/HyundaiBlueLinkApiUSA.py:903-914 | one entry per distinct day with its exact trip count, and the counts add up |
| Trips.OverruleDistances | hyundai_kia_connect_api/HyundaiBlueLinkApiUSA.py:783-791 | in place, each distance becomes the odometer difference to the next older trip where that is known and not negative |
| Trips.OverruledMeans | hyundai_kia_connect_api/HyundaiBlueLinkApiUSA.py:783-791 | which distances are overruled, and by what |
| Trips.DistancesTelescope | hyundai_kia_connect_api/HyundaiBlueLinkApiUSA.py:783-791 | with readings that never fall the distances add up to the odometer's difference |
| WeekShift.ToUtcMeans | hyundai_kia_connect_api/GspaApiEU.py:2765-2777 | the reference date does not matter: the weekday moves by the shift and the clock depends on time and offset alone |
| WeekShift.SameMinuteOfTheWeek | hyundai_kia_connect_api/GspaApiEU.py:2765-2777 | wire day and time name the local minute of the week moved by the offset |
| WeekShift.SortedSetSorts | hyundai_kia_connect_api/GspaApiEU.py:2781 | the loop runs over the distinct days in increasing order |
| WeekShift.ScheduleReservation | hyundai_kia_connect_api/GspaApiEU.py:2762-2791 | no days is a ValueError; otherwise every day is shifted, and all of them give the one start time that is kept |
| WeekShift.WireDaysDistinctIff | hyundai_kia_connect_api/GspaApiEU.py:2779-2783 | the wire days stay distinct exactly when no two different days share a weekday |
| WeekShift.WeekDaysStayDistinct | hyundai_kia_connect_api/GspaApiEU.py:2753-2757 | which holds for the documented days 0 to 6 |
| HexTemp.FromToCode | hyundai_kia_connect_api/utils.py:196-207 | printing a code and parsing it back loses only the sign, and every printed code is canonical |
| HexTemp.RoundTripsIff | hyundai_kia_connect_api/utils.py:196-207 | the two functions invert each other exactly on the natural numbers |
| HexTemp.ToFromCode | hyundai_kia_connect_api/utils.py:196-207 | every canonical code is printed again by its value |
| HexTemp.Vectors | hyundai_kia_connect_api/utils.py:196-207 | 0, 20 and 255 are "00H", "14H" and "FFH" |

## Left out

- HTTP sessions, headers, sign-in and cookies: requests are oracle replies that either accept or raise.
- The parameter files, `_load_json` and `_parse_groups`: the tables are arbitrary, so nothing is said about the shipped ones.
- Lone surrogates in a Python string, which make `encode()` raise: Dafny strings hold Unicode scalar values only.
- `bytes.fromhex` of a device id and the random node in `create_tsid`: the node bytes are an argument.
- The constant members of the payloads (`hvacTempType`, `heating1`).
- How a server turns a written payload into a reported one: `Wire.Echo` reports each leaf as written, with any temperature codes.
- Temperature leaves that are not strings, and time sections that are not integers.
- Wire.ParsePrintTime: the parser is modelled on strings of plain digits; other strings that Python's `int` takes (sign, blanks, underscores) count as unparseable.
- HexTemp.FromToCode: the parser is modelled on hexadecimal digits with an optional sign; a `0x` prefix, blanks or underscores, which Python's `int` takes, count as a ValueError.
- Wire.DecodeCompletesIff: codes with a `0x` prefix, blanks or underscores complete in the source, while they count as a ValueError here, for the same reason.
- Which device id each request carries: the session keeps the registered id, the log does not.
- Thread interleaving around the re-registration lock: calls are sequential.
- A clock that runs backwards in the Type1 poll: delays there are non-negative. The Canadian poll needs no such assumption.
- Binary rounding of floats: speeds, distances and temperatures are exact reals.
- Naive datetimes in the `last_updated_at` setter: comparing them with aware ones raises.
- Time zones with daylight saving or sub-minute offsets in the weekly reservation.
- The vehicle's own odometer being overruled by the newest trip, and the GSPA reservation body: one assignment or read per field.
