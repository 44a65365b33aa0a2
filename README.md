# WishList: login, registration and administration screens

WishList is a desktop task tracker for a small company. Employees sign in
or register in a start window. Administrators then work through three
screens: employees, clients and tasks. Each screen is a list with a search,
date filters and an edit dialog. This project models in Dafny:

- the password verifier (`Services/PasswordHasher.cs`). It recognises a
  stored credential as an ASP.NET-Identity-style tagged record, a base64
  SHA-256 digest, an MD5 hex digest or plain text, and checks the password
  accordingly. The base64, hex, little-endian and UTF-8 encodings it relies
  on are modelled too (`Encoding`).
- the start window (`MainViewModel`). It holds the login form
  (`LoginViewModel`) and the registration form (`RegisterViewModel`).
- the three administration screens: `EmployeesViewModel`,
  `ClientsViewModel` and `TasksViewModel`. The model covers their filters
  and searches, load ordering with row numbering, the refiltering and
  renumbering loop, the save dialogs' checks, deleting, activating, and the
  today/week/month date shortcuts.
- `SelectedItemsConverter`. This binding converter turns a multi-select
  list into the text its closed box shows.

Pure logic is written as functions with lemmas about them. The view-models
change their own state, so each one is a class. Its commands are methods
that modify its fields, and each method's `ensures` ties the new state to
specification functions. The database tables are passed in as sequences and
passed back as the new table. The cryptographic primitives are fields of a
`Crypto` value. The current time and today's date are parameters.

Calendar days count from 0001-01-01, as `System.DateTime` does. Strings are
`seq<char>`, and a `null` string is modelled as `""`. A database ordering is
an ordinal stable sort.

Where verifying the natural contract showed that the code does not do what
it evidently means to do, both versions are modelled; see "## Findings".
The login form and the week shortcuts use the corrected versions.

The login is meant to open the administrator or manager window according
to the user's role. The code as written never does: its role query is
refused, so every user who gets that far sees a connection error. The model keeps the code
as written in `Login.LoginDecision` and records the difference as a finding.

## Model

| member | source | states |
|---|---|---|
| Encoding.Base64Value | WishList/WishList/Services/PasswordHasher.cs:46 | every character of the base64 alphabet maps to a 6-bit value |
| Encoding.Base64Digit | WishList/WishList/Services/PasswordHasher.cs:130 | every 6-bit value maps to a character of the base64 alphabet |
| Encoding.Base64DigitValue | WishList/WishList/Services/PasswordHasher.cs:130 | the digit and value maps are inverse to each other |
| Encoding.StripSpaces | WishList/WishList/Services/PasswordHasher.cs:46 | `FromBase64String` skips the whitespace it allows; the result holds none |
| Encoding.StripSpacesAppend | WishList/WishList/Services/PasswordHasher.cs:46 | stripping whitespace distributes over concatenation |
| Encoding.StripSpacesNoop | WishList/WishList/Services/PasswordHasher.cs:46 | text without whitespace is left unchanged |
| Encoding.DecodeQuantum | WishList/WishList/Services/PasswordHasher.cs:46 | four alphabet letters decode to three bytes |
| Encoding.DecodeFinalQuantum | WishList/WishList/Services/PasswordHasher.cs:46 | a padded final quantum decodes to one to three bytes, or fails |
| Encoding.EncodeTriple | WishList/WishList/Services/PasswordHasher.cs:130 | three bytes encode to a full quantum of four alphabet letters |
| Encoding.EncodeTail | WishList/WishList/Services/PasswordHasher.cs:130 | the final one to three bytes encode to four characters with padding |
| Encoding.Base64Encode | WishList/WishList/Services/PasswordHasher.cs:130 | `ToBase64String` gives four characters per quantum of three bytes |
| Encoding.QuantaForIsCeiling | WishList/WishList/Services/PasswordHasher.cs:130 | n bytes take ⌈n/3⌉ quanta, so the text has 4·⌈n/3⌉ characters |
| Encoding.EncodeQuanta | WishList/WishList/Services/PasswordHasher.cs:130 | the text of non-empty bytes is whole, non-empty quanta |
| Encoding.DecodeQuantaCons | WishList/WishList/Services/PasswordHasher.cs:158 | a full quantum in front of decodable quanta decodes to its three bytes in front |
| Encoding.QuantumRoundTrip | WishList/WishList/Services/PasswordHasher.cs:130 | decoding an encoded triple gives the triple back |
| Encoding.TailRoundTrip | WishList/WishList/Services/PasswordHasher.cs:130 | decoding an encoded tail gives the tail back |
| Encoding.EncodeHasNoSpaces | WishList/WishList/Services/PasswordHasher.cs:130 | encoded text holds no whitespace |
| Encoding.DecodeQuantaEncode | WishList/WishList/Services/PasswordHasher.cs:130 | the quanta of an encoding decode back to the bytes |
| Encoding.Base64RoundTrip | WishList/WishList/Services/PasswordHasher.cs:130 | `FromBase64String(ToBase64String(b)) == b` for every byte string |
| Encoding.Base64Decode | WishList/WishList/Services/PasswordHasher.cs:46 | `Convert.FromBase64String`: whitespace dropped, then whole quanta or no result; `Base64RoundTrip` proves it inverts `Base64Encode`, `AlphabetQuantaDecode` that unpadded alphabet quanta always decode |
| Encoding.AlphabetQuantaDecode | WishList/WishList/Services/PasswordHasher.cs:151-165 | alphabet-only text in whole quanta always decodes |
| Encoding.LeadingAADecodesToZero | WishList/WishList/Services/PasswordHasher.cs:46-49 | text starting `AA` decodes to a first byte of 0 |
| Encoding.PrefixAQAAAADecodes | WishList/WishList/Services/PasswordHasher.cs:146-149 | text starting `AQAAAA` decodes to bytes starting `01 00 00 00` |
| Encoding.UpperHexDigit | WishList/WishList/Services/PasswordHasher.cs:141 | a nibble becomes `0`-`9` or `A`-`F` |
| Encoding.HexPair | WishList/WishList/Services/PasswordHasher.cs:141 | a byte becomes two hex digits |
| Encoding.HexPairs | WishList/WishList/Services/PasswordHasher.cs:141 | `BitConverter.ToString` takes one pair per byte, in order |
| Encoding.RemoveChar | WishList/WishList/Services/PasswordHasher.cs:141 | `Replace("-", "")` leaves no dash |
| Encoding.RemoveCharAppend | WishList/WishList/Services/PasswordHasher.cs:141 | removing a character distributes over concatenation |
| Encoding.RemoveCharNoop | WishList/WishList/Services/PasswordHasher.cs:141 | text without the character is left unchanged |
| Encoding.UpperHex | WishList/WishList/Services/PasswordHasher.cs:141 | the hex text has two upper-case hex digits per byte |
| Encoding.BitConverterToString | WishList/WishList/Services/PasswordHasher.cs:141 | `BitConverter.ToString`: upper-case hex pairs joined by `-`; `BitConverterWithoutDashes` proves removing the dashes gives the plain hex text |
| Encoding.BitConverterWithoutDashes | WishList/WishList/Services/PasswordHasher.cs:141 | the dashed `BitConverter` text without dashes is the plain hex text |
| Encoding.LowerUpperHexIsLowerHex | WishList/WishList/Services/PasswordHasher.cs:141 | lower-casing the hex text gives lower-case hex digits only |
| Encoding.UInt32FromLittleEndian | WishList/WishList/Services/PasswordHasher.cs:66 | four little-endian bytes read as an unsigned 32-bit value |
| Encoding.LittleEndianFromUInt32 | WishList/WishList/Services/PasswordHasher.cs:66 | an unsigned 32-bit value written as four little-endian bytes |
| Encoding.LittleEndianRoundTrip | WishList/WishList/Services/PasswordHasher.cs:66 | reading back a written value gives the value |
| Encoding.LittleEndianOfUInt32 | WishList/WishList/Services/PasswordHasher.cs:70 | writing back a read value gives the bytes |
| Encoding.Int32FromUInt32 | WishList/WishList/Services/PasswordHasher.cs:70 | the `int` cast of a 32-bit field is negative exactly when the top bit is set |
| Encoding.Utf8Char | WishList/WishList/Services/PasswordHasher.cs:128 | a character takes one to four UTF-8 bytes |
| Encoding.Utf8 | WishList/WishList/Services/PasswordHasher.cs:128 | the UTF-8 bytes of a string are between one and four times its length |
| Text.LowerChar | WishList/WishList/Services/PasswordHasher.cs:119 | `char.ToLower` leaves no capital, and changes exactly the capitals |
| Text.ToLower | WishList/WishList/ViewModel/LoginViewModel.cs:144 | `ToLower` lowers each character in place |
| Text.ToLowerHasNoUpper | WishList/WishList/ViewModel/LoginViewModel.cs:144 | a lower-cased string holds no capital letter |
| Text.ContainsAt | WishList/WishList/ViewModel/RegisterViewModel.cs:174 | `Contains` holds exactly when the text occurs at some position |
| Text.ContainsSelfAndEmpty | WishList/WishList/ViewModel/AdminViewModel/Dop/EmployeesViewModel.cs:1016-1026 | every text contains itself and the empty text |
| Text.Join | WishList/WishList/ViewModel/AdminViewModel/Dop/TasksViewModel.cs:633 | `string.Join` of nothing is empty; of one part is that part |
| Text.JoinPartAt | WishList/WishList/ViewModel/AdminViewModel/Dop/TasksViewModel.cs:633 | each part occurs in the joined text at its computed offset |
| Text.Decimal | WishList/WishList/ViewModel/AdminViewModel/Dop/EmployeesViewModel.cs:503 | `int.ToString()` of a count: at least one digit, only digits, no leading zero |
| Text.DecimalRoundTrip | WishList/WishList/ViewModel/AdminViewModel/Dop/EmployeesViewModel.cs:503 | reading the digits back gives the count |
| Calendar.DayOf | WishList/WishList/ViewModel/AdminViewModel/Dop/EmployeesViewModel.cs:1036-1043 | `DateTime.Date`: the instant lies within the day found |
| Calendar.DayOfStartOfDay | WishList/WishList/ViewModel/AdminViewModel/Dop/EmployeesViewModel.cs:1036-1043 | midnight of a day lies on that day |
| Calendar.DaysInMonth | WishList/WishList/ViewModel/AdminViewModel/Dop/EmployeesViewModel.cs:972 | `DateTime.DaysInMonth` is 28-31, and February has 29 days exactly in leap years |
| Calendar.DaysBeforeMonth | WishList/WishList/ViewModel/AdminViewModel/Dop/EmployeesViewModel.cs:968-973 | the days before a month lie between 28 and 31 per earlier month |
| Calendar.DaysBeforeMonthStep | WishList/WishList/ViewModel/AdminViewModel/Dop/EmployeesViewModel.cs:968-973 | each month starts where the one before it ends |
| Calendar.DayNumberInMonth | WishList/WishList/ViewModel/AdminViewModel/Dop/EmployeesViewModel.cs:968-973 | within a month, day numbers differ as the days of the month do |
| Calendar.DayOfWeek | WishList/WishList/ViewModel/AdminViewModel/Dop/EmployeesViewModel.cs:963 | `DayOfWeek` lies in 0 (Sunday) to 6 (Saturday) |
| Calendar.DayOfWeekNext | WishList/WishList/ViewModel/AdminViewModel/Dop/EmployeesViewModel.cs:963 | the next day has the next weekday |
| Calendar.TodayRange | WishList/WishList/ViewModel/AdminViewModel/Dop/EmployeesViewModel.cs:954-958 | both bounds are today |
| Calendar.DefaultRange | WishList/WishList/ViewModel/AdminViewModel/Dop/EmployeesViewModel.cs:97-98 | thirty days either side of today, so the range holds today |
| Calendar.WeekRange | WishList/WishList/ViewModel/AdminViewModel/Dop/EmployeesViewModel.cs:960-966 | the week shortcut as written spans seven days |
| Calendar.WeekRangeOnWeekdays | WishList/WishList/ViewModel/AdminViewModel/Dop/EmployeesViewModel.cs:960-966 | from Monday to Saturday the week as written starts on a Monday and holds today |
| Calendar.WeekRangeSundayStartsTomorrow | WishList/WishList/ViewModel/AdminViewModel/Dop/EmployeesViewModel.cs:963 | on a Sunday the week as written starts tomorrow and misses today |
| Calendar.WeekRangeFixed | WishList/WishList/ViewModel/AdminViewModel/Dop/EmployeesViewModel.cs:960-966 | the corrected week spans seven days |
| Calendar.WeekRangeFixedHoldsToday | WishList/WishList/ViewModel/AdminViewModel/Dop/EmployeesViewModel.cs:960-966 | the corrected week starts on a Monday, holds today, and agrees with the original except on Sundays |
| Calendar.MonthRange | WishList/WishList/ViewModel/AdminViewModel/Dop/EmployeesViewModel.cs:968-973 | the first to the last day of today's month; `MonthRangeHoldsToday` proves it holds today and every day of the month, and is as long as the month |
| Calendar.MonthRangeHoldsToday | WishList/WishList/ViewModel/AdminViewModel/Dop/EmployeesViewModel.cs:968-973 | the month shortcut holds today and exactly the days of its month |
| Listing.Items | WishList/WishList/ViewModel/AdminViewModel/Dop/EmployeesViewModel.cs:17-61 | the records of a numbered list, in order |
| Listing.Select | WishList/WishList/ViewModel/AdminViewModel/Dop/EmployeesViewModel.cs:1002 | `Where` keeps only accepted records of the list |
| Listing.SelectAppend | WishList/WishList/ViewModel/AdminViewModel/Dop/EmployeesViewModel.cs:1002 | `Where` distributes over concatenation |
| Listing.SelectKeepsAccepted | WishList/WishList/ViewModel/AdminViewModel/Dop/EmployeesViewModel.cs:1002 | every accepted record of the list is kept |
| Listing.SelectAll | WishList/WishList/ViewModel/AdminViewModel/Dop/EmployeesViewModel.cs:1002 | when everything is accepted nothing is dropped |
| Listing.NumberFrom | WishList/WishList/ViewModel/AdminViewModel/Dop/EmployeesViewModel.cs:489-497 | row k carries record k and the number first + k |
| Listing.ItemsOfNumberFrom | WishList/WishList/ViewModel/AdminViewModel/Dop/EmployeesViewModel.cs:489-497 | numbering keeps the records and their order |
| Listing.NumberRows | WishList/WishList/ViewModel/AdminViewModel/Dop/EmployeesViewModel.cs:489-497 | the numbering loop numbers the rows 1..n |
| Listing.RenumberAll | WishList/WishList/ViewModel/AdminViewModel/Dop/EmployeesViewModel.cs:1004 | renumbering keeps one row per row |
| Listing.RenumberKeepsItems | WishList/WishList/ViewModel/AdminViewModel/Dop/EmployeesViewModel.cs:1004 | renumbering keeps every record in place, leaves rejected rows unchanged, and numbers an accepted row one past the accepted rows before it |
| Listing.FilterAndRenumber | WishList/WishList/ViewModel/AdminViewModel/Dop/EmployeesViewModel.cs:996-1008 | the loop builds the filtered list numbered 1..n and renumbers the shared rows |
| Listing.FilteredStep | WishList/WishList/ViewModel/AdminViewModel/Dop/EmployeesViewModel.cs:1004 | the filtered list grows by the accepted row, numbered one past the last |
| Listing.FilteredPrefixIsSelect | WishList/WishList/ViewModel/AdminViewModel/Dop/EmployeesViewModel.cs:996-1008 | after visiting n rows the loop's filtered list is the accepted records among them, numbered from 1 |
| Listing.RenumberPrefixIsAll | WishList/WishList/ViewModel/AdminViewModel/Dop/EmployeesViewModel.cs:996-1008 | after visiting n rows the loop's full list is the first n renumbered rows |
| Listing.RenumberPrefixStep | WishList/WishList/ViewModel/AdminViewModel/Dop/EmployeesViewModel.cs:1004 | one more pass appends the row as renumbering gives it |
| Listing.RenumberAllStep | WishList/WishList/ViewModel/AdminViewModel/Dop/EmployeesViewModel.cs:1004 | the renumbered list one row further on ends with that row renumbered |
| Listing.FilteredPrefixFull | WishList/WishList/ViewModel/AdminViewModel/Dop/EmployeesViewModel.cs:996-1008 | after the last row the filtered list holds every accepted record, numbered 1..n |
| Listing.RenumberPrefixFull | WishList/WishList/ViewModel/AdminViewModel/Dop/EmployeesViewModel.cs:996-1008 | after the last row the full list is the whole renumbered list |
| Listing.NumberAndFilter | WishList/WishList/ViewModel/AdminViewModel/Dop/EmployeesViewModel.cs:474-515 | a load numbers the ordered records 1..n, then filters and renumbers them |
| Listing.SelectStep | WishList/WishList/ViewModel/AdminViewModel/Dop/EmployeesViewModel.cs:1002 | filtering one more record appends it exactly when it is accepted |
| Listing.NumberFromAppend | WishList/WishList/ViewModel/AdminViewModel/Dop/EmployeesViewModel.cs:489-497 | numbering one more record appends its row |
| Listing.FilteredNumbering | WishList/WishList/ViewModel/AdminViewModel/Dop/EmployeesViewModel.cs:996-1008 | the filtered list holds exactly the accepted records, numbered 1..n |
| Listing.IndexOfKey | WishList/WishList/Model/Repository/EmployeesRepository.cs:33-36 | the position of the first record with the key, or the length if none |
| Listing.FindByKey | WishList/WishList/Model/Repository/EmployeesRepository.cs:33-36 | `GetById` finds a record exactly when one has the key |
| Listing.RemoveByKey | WishList/WishList/Model/Repository/EmployeesRepository.cs:48-55 | removing a present key drops one record; an absent key changes nothing |
| Listing.UpdateByKey | WishList/WishList/ViewModel/AdminViewModel/Dop/EmployeesViewModel.cs:889-909 | exactly the records with the key are changed |
| Listing.UpdateByKeyTwice | WishList/WishList/ViewModel/AdminViewModel/Dop/EmployeesViewModel.cs:889-909 | with an update that keeps the key and repeats to the same result, updating by key again finds the record again and changes nothing |
| Listing.RemoveByKeyExact | WishList/WishList/Model/Repository/EmployeesRepository.cs:48-55 | with unique keys, the records left are exactly those with another key |
| Listing.Insert | WishList/WishList/ViewModel/AdminViewModel/Dop/EmployeesViewModel.cs:481-484 | inserting into a sorted list keeps it sorted and adds exactly one record |
| Listing.SortBy | WishList/WishList/ViewModel/AdminViewModel/Dop/EmployeesViewModel.cs:481-484 | `OrderBy` gives a sorted permutation |
| Listing.SortedHeadFirst | WishList/WishList/ViewModel/AdminViewModel/Dop/ClientsViewModel.cs:382 | in a list sorted by a transitive order the first element comes before every later one |
| Listing.SelectKeepsSorted | WishList/WishList/ViewModel/AdminViewModel/Dop/ClientsViewModel.cs:374-411 | a selection from a list sorted by a transitive order is sorted by it: filtering after `OrderBy` keeps the order |
| Listing.StringLeTotal | WishList/WishList/ViewModel/AdminViewModel/Dop/EmployeesViewModel.cs:481-484 | the ordinal string order is total |
| Listing.LoadedMessage | WishList/WishList/ViewModel/AdminViewModel/Dop/EmployeesViewModel.cs:503 | "Загружено", the count as `int.ToString` writes it, and the noun; `Text.DecimalRoundTrip` proves the count reads back |
| Records.FirstWithEmail | WishList/WishList/ViewModel/LoginViewModel.cs:93-94 | `FirstOrDefault(e => e.Email == email)` finds the first record with that e-mail, or none exactly when there is none |
| Records.FirstWithEmailAppend | WishList/WishList/ViewModel/RegisterViewModel.cs:126-144 | adding a record with an unused e-mail makes it the one its e-mail finds and changes no other lookup |
| PasswordHasher.DigestText | WishList/WishList/Services/PasswordHasher.cs:130 | the base64 text of a SHA-256 digest has 44 characters and decodes back to the digest |
| PasswordHasher.HashPasswordSha256 | WishList/WishList/Services/PasswordHasher.cs:124-132 | the stored SHA-256 text is 44 characters, base64-shaped, and decodes to the digest |
| PasswordHasher.HashPasswordMd5 | WishList/WishList/Services/PasswordHasher.cs:135-143 | the stored MD5 text is 32 lower-case hex digits of the digest |
| PasswordHasher.ParseIdentityRecord | WishList/WishList/Services/PasswordHasher.cs:49-78 | a parsed record starts with version byte 1 and accounts for every byte; the salt length is a non-negative `int` |
| PasswordHasher.SerializeIdentityRecord | WishList/WishList/Services/PasswordHasher.cs:49-78 | the layout's length is 10 plus the salt and the key |
| PasswordHasher.IdentityRecordRoundTrip | WishList/WishList/Services/PasswordHasher.cs:49-78 | parsing a serialized record gives it back |
| PasswordHasher.IdentityRecordParsedIsSerialized | WishList/WishList/Services/PasswordHasher.cs:49-78 | every accepted byte string is the serialization of what was read |
| PasswordHasher.PrfOf | WishList/WishList/Services/PasswordHasher.cs:63 | HMAC-SHA256 exactly when the low bit of the flags is set |
| PasswordHasher.VerifyAspNetIdentityPassword | WishList/WishList/Services/PasswordHasher.cs:42-95 | the cursor walk answers true exactly when the record decodes, parses and the PBKDF2 key equals the expected one |
| PasswordHasher.IsAspNetIdentityHash | WishList/WishList/Services/PasswordHasher.cs:145-148 | the stored value starts with `AQAAAA`; `LowerHexIsNotIdentity` proves no lower-hex text does |
| PasswordHasher.IsBase64Hash | WishList/WishList/Services/PasswordHasher.cs:151-165 | non-empty, a multiple of four long, and decodable; `AlphabetTextIsBase64Hash` and `Md5ShapeIsBase64Shape` say which texts pass |
| PasswordHasher.IsMd5Hash | WishList/WishList/Services/PasswordHasher.cs:167-173 | exactly 32 hex digits of either case; `Md5ShapeIsBase64Shape` proves every such lower-case text also passes the base64 test |
| PasswordHasher.IdentityMatches | WishList/WishList/Services/PasswordHasher.cs:42-95 | the value decodes, the record parses, the key derivation accepts its arguments and the derived key matches; `VerifyAspNetIdentityPassword` is proved to answer exactly this |
| PasswordHasher.VerifySha256Password | WishList/WishList/Services/PasswordHasher.cs:98-109 | the SHA-256 text of the password equals the stored text; `Sha256RoundTrip` proves a stored SHA-256 text passes it |
| PasswordHasher.VerifyMd5Password | WishList/WishList/Services/PasswordHasher.cs:112-121 | the MD5 hex of the password equals the stored text lower-cased; `FixedMd5RoundTrip` proves a stored MD5 text passes it |
| PasswordHasher.FormatOf | WishList/WishList/Services/PasswordHasher.cs:14-36 | the branch `VerifyPassword` takes, tests in source order; `Md5BranchUnreachable` proves the MD5 branch is never chosen, `IdentityBranchTakesPrecedence` that `AQAAAA` values go to the identity check |
| PasswordHasher.VerifyPassword | WishList/WishList/Services/PasswordHasher.cs:12-37 | the check of the chosen branch; `EmptyNeverVerifies`, `PlainTextIsExact`, `Sha256RoundTrip`, `Md5RoundTripFails` and `Base64ShapeNeeds44` state what it answers per branch |
| PasswordHasher.EmptyNeverVerifies | WishList/WishList/Services/PasswordHasher.cs:14-15 | an empty password or stored value never verifies |
| PasswordHasher.PlainTextIsExact | WishList/WishList/Services/PasswordHasher.cs:33-36 | the last branch is exact, case-sensitive equality |
| PasswordHasher.AlphabetTextIsBase64Hash | WishList/WishList/Services/PasswordHasher.cs:151-165 | text of alphabet letters in whole quanta passes the base64 test |
| PasswordHasher.Md5ShapeIsBase64Shape | WishList/WishList/Services/PasswordHasher.cs:151-173 | every 32-digit hex text passes the base64 test |
| PasswordHasher.Md5BranchUnreachable | WishList/WishList/Services/PasswordHasher.cs:22-31 | the MD5 branch is never chosen |
| PasswordHasher.Base64ShapeNeeds44 | WishList/WishList/Services/PasswordHasher.cs:22-26 | a base64-shaped stored value that is not 44 characters long never verifies |
| PasswordHasher.LowerHexIsNotIdentity | WishList/WishList/Services/PasswordHasher.cs:146-149 | text starting with a lower-case hex digit is not a tagged record |
| PasswordHasher.Md5RoundTripFails | WishList/WishList/Services/PasswordHasher.cs:22-31 | a password stored as its MD5 text never verifies |
| PasswordHasher.Sha256RoundTrip | WishList/WishList/Services/PasswordHasher.cs:22-26 | a password stored as its SHA-256 text verifies, unless that text starts `AQAAAA` |
| PasswordHasher.VerbatimPasswordRejected | WishList/WishList/Services/PasswordHasher.cs:22-26 | the stored verbatim password "abcdefgh" does not verify against itself |
| PasswordHasher.IdentityBranchAlwaysSha512 | WishList/WishList/Services/PasswordHasher.cs:59-63 | every record reaching the tagged branch has zero flags, so HMAC-SHA512 is always chosen |
| PasswordHasher.IdentityBranchTakesPrecedence | WishList/WishList/Services/PasswordHasher.cs:17-21 | an `AQAAAA` value is judged by the tagged record alone |
| PasswordHasher.ToLowerNoop | WishList/WishList/Services/PasswordHasher.cs:119 | lower-casing text without capitals changes nothing |
| PasswordHasher.FixedMd5RoundTrip | WishList/WishList/Services/PasswordHasher.cs:27-31 | with MD5 tested first, a password stored as its MD5 text verifies |
| PasswordHasher.FixedSha256RoundTrip | WishList/WishList/Services/PasswordHasher.cs:22-26 | the correction keeps SHA-256 texts verifying |
| PasswordHasher.FixedPlainTextRoundTrip | WishList/WishList/Services/PasswordHasher.cs:33-36 | with the correction a password stored verbatim verifies unless shaped like a hash |
| PasswordHasher.VerifyPasswordFixed | WishList/WishList/Services/PasswordHasher.cs:12-37 | corrected: MD5 tested before base64, and base64 only for 44-character texts; `FixedMd5RoundTrip`, `FixedSha256RoundTrip` and `FixedPlainTextRoundTrip` prove each stored form verifies its password |
| Register.FallbackRoles | WishList/WishList/ViewModel/RegisterViewModel.cs:87-111 | the roles offered when the role table cannot be read are 2 and 3 |
| Register.ValidationErrorIff | WishList/WishList/ViewModel/RegisterViewModel.cs:166-193 | the input is accepted exactly when both names are filled in, the e-mail has an `@`, the password has six or more characters and is confirmed |
| Register.ValidationError | WishList/WishList/ViewModel/RegisterViewModel.cs:166-193 | the message of the first failing check, in source order; `ValidationErrorIff` proves no message exactly for valid input |
| Register.NewAccount | WishList/WishList/ViewModel/RegisterViewModel.cs:135-144 | the new account is active, stamped now, with the chosen role and the password as typed |
| Register.Registered | WishList/WishList/ViewModel/RegisterViewModel.cs:113-164 | a registration adds exactly one account, exactly when the input is valid and the e-mail unused |
| Register.RegisteredKeepsEmailsUnique | WishList/WishList/ViewModel/RegisterViewModel.cs:126-144 | registration keeps e-mails unique and the new account is found by its e-mail |
| Register.RegisterForm.constructor | WishList/WishList/ViewModel/RegisterViewModel.cs:82-85 | empty fields, role 3, and the role list loaded |
| Register.RegisterForm.LoadAvailableRoles | WishList/WishList/ViewModel/RegisterViewModel.cs:87-111 | every role but the administrator's, or the fallback roles; never role 1 |
| Register.RegisterForm.ValidateInput | WishList/WishList/ViewModel/RegisterViewModel.cs:166-193 | true exactly for valid input; otherwise the first failing check's message |
| Register.RegisterForm.ClearForm | WishList/WishList/ViewModel/RegisterViewModel.cs:196-204 | the input fields are empty and the role is 3 |
| Register.RegisterForm.ClearOnSwitch | WishList/WishList/ViewModel/RegisterViewModel.cs:207-218 | input, both messages and the busy flag are reset |
| Register.RegisterForm.RegisterExecute | WishList/WishList/ViewModel/RegisterViewModel.cs:113-164 | each outcome with its message: invalid input, lookup failure, duplicate e-mail, save failure, or success with the new table, a cleared form and a switch to login; every outcome but success leaves the input fields as they were |
| Login.WindowFor | WishList/WishList/ViewModel/LoginViewModel.cs:144-155 | the administrator window exactly for the first label, the manager window exactly for the second |
| Login.LoweredNeverCapitalised | WishList/WishList/ViewModel/LoginViewModel.cs:144-148 | a lower-cased name never equals a capitalised label |
| Login.RoleDecision | WishList/WishList/ViewModel/LoginViewModel.cs:138-162 | as written: the role with the user's own id, lower-cased and compared with capitalised labels; `RoleDecisionNeverOpens` proves it never opens a window |
| Login.RoleDecisionNeverOpens | WishList/WishList/ViewModel/LoginViewModel.cs:138-162 | the role switch as written, were its query to run, never opens a window |
| Login.LoginDecision | WishList/WishList/ViewModel/LoginViewModel.cs:77-162 | as written: the checks of `LoginExecute` in order, ending in the refused `Include`; `NoWindowEverOpens`, `IncludeAlwaysFails` and `RegisteredUserRejected` state its outcomes |
| Login.NoWindowEverOpens | WishList/WishList/ViewModel/LoginViewModel.cs:77-162 | as written no login ever opens a window |
| Login.IncludeAlwaysFails | WishList/WishList/ViewModel/LoginViewModel.cs:99-106 | as written every active user whose password verifies gets the connection error of the refused `Include`; an unknown e-mail gets "Пользователь не найден." |
| Login.RegisteredUserRejected | WishList/WishList/ViewModel/LoginViewModel.cs:99 | an account registered with "abcdefgh" is told "Неверный пароль." |
| Login.RoleDecisionFixed | WishList/WishList/ViewModel/LoginViewModel.cs:133-162 | corrected: the role found by the user's role id, compared with lower-case labels; `AdminOpensIff` proves when it opens the administrator window |
| Login.LoginDecisionFixed | WishList/WishList/ViewModel/LoginViewModel.cs:77-162 | corrected: the login with `VerifyPasswordFixed` and `RoleDecisionFixed`; `AdminOpensIff` and `RegisteredUserAcceptedFixed` state its outcomes |
| Login.AdminOpensIff | WishList/WishList/ViewModel/LoginViewModel.cs:77-162 | corrected: the administrator window opens exactly for an active account found by e-mail, with a verifying password and a role named "Администратор" in any case |
| Login.RegisteredUserAcceptedFixed | WishList/WishList/ViewModel/LoginViewModel.cs:93-105 | corrected: a registered account whose password is not shaped like a hash reaches the role step |
| Login.MessageOf | WishList/WishList/ViewModel/LoginViewModel.cs:77-131 | the message shown is the failure's, or empty when a window opens |
| Login.LoginForm.constructor | WishList/WishList/ViewModel/LoginViewModel.cs:73-75 | empty fields, no message, not busy |
| Login.LoginForm.LoginExecute | WishList/WishList/ViewModel/LoginViewModel.cs:77-131 | corrected: the window opened and the message shown are the corrected login decision's; missing fields leave the busy flag alone, otherwise it ends cleared |
| Login.LoginForm.DetermineUserRoleAndOpenWindow | WishList/WishList/ViewModel/LoginViewModel.cs:133-184 | corrected: opens the window of the corrected role step, or shows its message |
| MainView.CaptionsOf | WishList/WishList/ViewModel/MainViewModel.cs:77-95 | each form has its own switch caption |
| MainView.MainWindow.constructor | WishList/WishList/ViewModel/MainViewModel.cs:61-75 | both forms created with empty fields and messages and not busy, the offered roles loaded (or the fallback roles), login form shown with its captions |
| MainView.MainWindow.ShowLoginForm | WishList/WishList/ViewModel/MainViewModel.cs:77-85 | login form shown with its captions, registration form cleared |
| MainView.MainWindow.ShowRegisterForm | WishList/WishList/ViewModel/MainViewModel.cs:87-95 | registration form shown with its captions |
| MainView.MainWindow.SwitchForm | WishList/WishList/ViewModel/MainViewModel.cs:97-107 | the other form is shown, captions agree; leaving registration clears it |
| MainView.MainWindow.ExecuteEnterKey | WishList/WishList/ViewModel/MainViewModel.cs:119-129 | Enter logs in on the login form (with the corrected decision) and registers on the registration form; a successful registration returns to the login form |
| Employees.StatusFilters | WishList/WishList/ViewModel/AdminViewModel/Dop/EmployeesViewModel.cs:392-401 | three status entries: all, active only, inactive only |
| Employees.FilterEmployees | WishList/WishList/ViewModel/AdminViewModel/Dop/EmployeesViewModel.cs:1010-1046 | the tests in source order; `FilterEmployeesIff` proves it is the conjunction of search, status, role and both date bounds |
| Employees.FilterEmployeesIff | WishList/WishList/ViewModel/AdminViewModel/Dop/EmployeesViewModel.cs:1010-1046 | an employee passes exactly when search, status, role and both date bounds all hold |
| Employees.MatchesSearchIff | WishList/WishList/ViewModel/AdminViewModel/Dop/EmployeesViewModel.cs:1016-1026 | the search matches exactly when the lower-cased text occurs in a lower-cased name, e-mail or role name |
| Employees.EmptyFilterAcceptsAll | WishList/WishList/ViewModel/AdminViewModel/Dop/EmployeesViewModel.cs:1010-1046 | with no constraint set, every employee passes |
| Employees.ByNameTotal | WishList/WishList/ViewModel/AdminViewModel/Dop/EmployeesViewModel.cs:481-484 | ordering by last name then first name is total |
| Employees.SortedByName | WishList/WishList/ViewModel/AdminViewModel/Dop/EmployeesViewModel.cs:481-484 | the load returns a permutation of the table ordered by last then first name |
| Employees.LoadedFilteredIsSortedAndNumbered | WishList/WishList/ViewModel/AdminViewModel/Dop/EmployeesViewModel.cs:474-515 | after a load the grid holds exactly the accepted employees, in name order, numbered 1..n |
| Employees.SaveError | WishList/WishList/ViewModel/AdminViewModel/Dop/EmployeesViewModel.cs:844-887 | the message box of the first failing check, in source order; `SaveErrorIff` proves no message exactly for complete input |
| Employees.SaveErrorIff | WishList/WishList/ViewModel/AdminViewModel/Dop/EmployeesViewModel.cs:844-887 | saving goes ahead exactly when names and e-mail are filled in and a new employee's password is filled in, confirmed and six or more characters |
| Employees.ApplyEdit | WishList/WishList/ViewModel/AdminViewModel/Dop/EmployeesViewModel.cs:889-909 | an edit copies five fields, keeps key and creation time, and replaces the password only when one was typed |
| Employees.SavedTable | WishList/WishList/ViewModel/AdminViewModel/Dop/EmployeesViewModel.cs:889-919 | a new employee is appended with the typed password; an edit keeps the table's size |
| Employees.EditKeepsPasswords | WishList/WishList/ViewModel/AdminViewModel/Dop/EmployeesViewModel.cs:903-905 | an edit with a blank password changes no stored password |
| Employees.RelatedTasksIff | WishList/WishList/ViewModel/AdminViewModel/Dop/EmployeesViewModel.cs:596 | deleting is refused exactly when a task names the employee as manager or programmer |
| Employees.WithActivity | WishList/WishList/ViewModel/AdminViewModel/Dop/EmployeesViewModel.cs:789-835 | the row's employee gets the new state; its number stays |
| Employees.EmployeesScreen.constructor | WishList/WishList/ViewModel/AdminViewModel/Dop/EmployeesViewModel.cs:82-106 | the "all" status, thirty days either side of today, nothing selected, and the load run at once: the table in name order, numbered, with its count on the status line |
| Employees.EmployeesScreen.UpdateFilteredEmployees | WishList/WishList/ViewModel/AdminViewModel/Dop/EmployeesViewModel.cs:996-1008 | the filtered list is the accepted rows numbered 1..n, and the shared rows are renumbered |
| Employees.EmployeesScreen.LoadEmployees | WishList/WishList/ViewModel/AdminViewModel/Dop/EmployeesViewModel.cs:474-515 | both lists are rebuilt from the table in name order, the role list is loaded, and the status line shows "Загружено" with the row count |
| Employees.EmployeesScreen.AddEmployee | WishList/WishList/ViewModel/AdminViewModel/Dop/EmployeesViewModel.cs:517-540 | an empty active employee with the first role, blank passwords, dialog open, status "Добавление нового сотрудника" |
| Employees.EmployeesScreen.EditEmployee | WishList/WishList/ViewModel/AdminViewModel/Dop/EmployeesViewModel.cs:542-572 | a copy of the selected employee without its password, dialog open in edit mode, the status line naming the employee |
| Employees.EmployeesScreen.CancelEdit | WishList/WishList/ViewModel/AdminViewModel/Dop/EmployeesViewModel.cs:935-942 | dialog closed, edit copy and passwords cleared, status "Редактирование отменено" |
| Employees.EmployeesScreen.SetTodayFilter | WishList/WishList/ViewModel/AdminViewModel/Dop/EmployeesViewModel.cs:954-958 | both bounds today; only employees created today pass |
| Employees.EmployeesScreen.ClearFilters | WishList/WishList/ViewModel/AdminViewModel/Dop/EmployeesViewModel.cs:944-952 | no search, all statuses, no role, thirty days either side of today, status "Фильтры очищены" |
| Employees.EmployeesScreen.SetWeekFilter | WishList/WishList/ViewModel/AdminViewModel/Dop/EmployeesViewModel.cs:960-966 | the bounds are the corrected week, which holds today |
| Employees.EmployeesScreen.SetMonthFilter | WishList/WishList/ViewModel/AdminViewModel/Dop/EmployeesViewModel.cs:968-973 | the bounds are the first and last day of the month |
| Employees.EmployeesScreen.SetActivity | WishList/WishList/ViewModel/AdminViewModel/Dop/EmployeesViewModel.cs:789-835 | with a selection in the other state, every copy of that employee and its stored record get the new state and the status line says which; otherwise nothing changes |
| Employees.EmployeesScreen.DeleteEmployee | WishList/WishList/ViewModel/AdminViewModel/Dop/EmployeesViewModel.cs:574-681 | a confirmed delete of an employee no task names removes the record and its row and reports the deletion; otherwise nothing changes |
| Employees.EmployeesScreen.SaveEmployee | WishList/WishList/ViewModel/AdminViewModel/Dop/EmployeesViewModel.cs:837-933 | the first failing check is shown and nothing changes; otherwise the table is saved, the dialog closed, the lists and the count reloaded, and on create the edit copy holds the new id, creation time and stored password |
| Clients.MatchesSearchIff | WishList/WishList/ViewModel/AdminViewModel/Dop/ClientsViewModel.cs:631-641 | the search matches exactly when the lower-cased text occurs in one of the five lower-cased fields |
| Clients.FilterClients | WishList/WishList/ViewModel/AdminViewModel/Dop/ClientsViewModel.cs:625-651 | the search, then the inclusive creation-date bounds; `FilterClientsIff` proves it is their conjunction |
| Clients.FilterClientsIff | WishList/WishList/ViewModel/AdminViewModel/Dop/ClientsViewModel.cs:625-651 | a client passes exactly when the search and both date bounds hold |
| Clients.CompanyNameIsFound | WishList/WishList/ViewModel/AdminViewModel/Dop/ClientsViewModel.cs:631-641 | any piece of a company name finds the client |
| Clients.NewestFirstTotal | WishList/WishList/ViewModel/AdminViewModel/Dop/ClientsViewModel.cs:382 | the newest-first order is total |
| Clients.NewestFirstTransitive | WishList/WishList/ViewModel/AdminViewModel/Dop/ClientsViewModel.cs:382 | the newest-first order is transitive |
| Clients.NewestFirstOrderKept | WishList/WishList/ViewModel/AdminViewModel/Dop/ClientsViewModel.cs:374-411 | filtering the newest-first list keeps it newest first |
| Clients.SortedByCreated | WishList/WishList/ViewModel/AdminViewModel/Dop/ClientsViewModel.cs:382 | the load returns a permutation of the table, newest first |
| Clients.LoadedFilteredIsNewestFirst | WishList/WishList/ViewModel/AdminViewModel/Dop/ClientsViewModel.cs:374-411 | after a load the grid is exactly the accepted clients in newest-first order (`Select` of the sorted table), numbered 1..n, and every accepted stored client is in it |
| Clients.LoadedFilteredOrder | WishList/WishList/ViewModel/AdminViewModel/Dop/ClientsViewModel.cs:374-411 | after a load the grid's rows are newest first |
| Clients.LoadedFilteredComplete | WishList/WishList/ViewModel/AdminViewModel/Dop/ClientsViewModel.cs:374-411 | after a load every stored client the filter passes is in the grid |
| Clients.SaveError | WishList/WishList/ViewModel/AdminViewModel/Dop/ClientsViewModel.cs:498-510 | saving goes ahead exactly when company name and e-mail are filled in |
| Clients.ApplyEdit | WishList/WishList/ViewModel/AdminViewModel/Dop/ClientsViewModel.cs:491-546 | an edit copies the five text fields and keeps key and creation time |
| Clients.ApplyEditTwice | WishList/WishList/ViewModel/AdminViewModel/Dop/ClientsViewModel.cs:491-546 | applying the same edit again changes nothing, and an edit keeps the key |
| Clients.SavedTable | WishList/WishList/ViewModel/AdminViewModel/Dop/ClientsViewModel.cs:491-546 | a new client is appended stamped now; an edit keeps size and creation times |
| Clients.SaveEditIdempotent | WishList/WishList/ViewModel/AdminViewModel/Dop/ClientsViewModel.cs:491-546 | saving the same edit twice is saving it once |
| Clients.ClientsScreen.constructor | WishList/WishList/ViewModel/AdminViewModel/Dop/ClientsViewModel.cs:62-80 | thirty days either side of today, nothing selected, and the load run at once: the table newest first, numbered, with its count on the status line |
| Clients.ClientsScreen.UpdateFilteredClients | WishList/WishList/ViewModel/AdminViewModel/Dop/ClientsViewModel.cs:611-623 | the filtered list is the accepted rows numbered 1..n, and the shared rows are renumbered |
| Clients.ClientsScreen.LoadClients | WishList/WishList/ViewModel/AdminViewModel/Dop/ClientsViewModel.cs:374-411 | both lists are rebuilt from the table newest first, and the status line shows "Загружено" with the row count |
| Clients.ClientsScreen.AddClient | WishList/WishList/ViewModel/AdminViewModel/Dop/ClientsViewModel.cs:413-431 | an empty client stamped now, dialog open in add mode, status "Добавление нового клиента" |
| Clients.ClientsScreen.EditClient | WishList/WishList/ViewModel/AdminViewModel/Dop/ClientsViewModel.cs:433-460 | a copy of the selected client, dialog open in edit mode, the status line naming the company |
| Clients.ClientsScreen.CancelEdit | WishList/WishList/ViewModel/AdminViewModel/Dop/ClientsViewModel.cs:548-553 | dialog closed and edit copy cleared |
| Clients.ClientsScreen.ClearFilters | WishList/WishList/ViewModel/AdminViewModel/Dop/ClientsViewModel.cs:555-561 | no search, thirty days either side of today |
| Clients.ClientsScreen.SetTodayFilter | WishList/WishList/ViewModel/AdminViewModel/Dop/ClientsViewModel.cs:581-585 | both bounds today |
| Clients.ClientsScreen.SetWeekFilter | WishList/WishList/ViewModel/AdminViewModel/Dop/ClientsViewModel.cs:587-593 | the bounds are the corrected week, which holds today |
| Clients.ClientsScreen.SetMonthFilter | WishList/WishList/ViewModel/AdminViewModel/Dop/ClientsViewModel.cs:595-600 | the bounds are the first and last day of the month |
| Clients.ClientsScreen.DeleteClient | WishList/WishList/ViewModel/AdminViewModel/Dop/ClientsViewModel.cs:462-489 | a confirmed delete removes the client and reloads; otherwise nothing changes |
| Clients.ClientsScreen.SaveClient | WishList/WishList/ViewModel/AdminViewModel/Dop/ClientsViewModel.cs:491-546 | the first failing check is shown; otherwise the table is saved, the dialog closed and the lists and the count reloaded |
| Tasks.SelectedItems | WishList/WishList/ViewModel/AdminViewModel/Dop/TasksViewModel.cs:675-693 | no more items than entries, and empty exactly when nothing is selected |
| Tasks.SelectedItemsMembers | WishList/WishList/ViewModel/AdminViewModel/Dop/TasksViewModel.cs:675-693 | an item is among the selected items exactly when some selected entry holds it |
| Tasks.Unselected | WishList/WishList/ViewModel/AdminViewModel/Dop/TasksViewModel.cs:567-627 | a fresh list wraps each item unselected |
| Tasks.UnselectedKeepsItems | WishList/WishList/ViewModel/AdminViewModel/Dop/TasksViewModel.cs:567-627 | a fresh list keeps its items and selects nothing |
| Tasks.Toggled | WishList/WishList/ViewModel/AdminViewModel/Dop/TasksViewModel.cs:16-55 | ticking changes exactly one entry's flag |
| Tasks.ItemsOf | WishList/WishList/ViewModel/AdminViewModel/Dop/TasksViewModel.cs:16-55 | the items of a list, in order |
| Tasks.Deselect | WishList/WishList/ViewModel/AdminViewModel/Dop/TasksViewModel.cs:509-512 | the clearing loop keeps the items and clears every flag |
| Tasks.DisplayText | WishList/WishList/ViewModel/AdminViewModel/Dop/TasksViewModel.cs:629-646 | the placeholder for no names, else the names joined by ", "; `DisplayTextLists` proves every name sits at its place in the text |
| Tasks.DisplayTextLists | WishList/WishList/ViewModel/AdminViewModel/Dop/TasksViewModel.cs:629-646 | no selection shows the placeholder; otherwise every selected name appears at its place in the list |
| Tasks.NamedNames | WishList/WishList/ViewModel/AdminViewModel/Dop/TasksViewModel.cs:632 | statuses, priorities and managers are shown by name |
| Tasks.EmployeeNames | WishList/WishList/ViewModel/AdminViewModel/Dop/TasksViewModel.cs:640 | employees are shown by name |
| Tasks.CompanyNames | WishList/WishList/ViewModel/AdminViewModel/Dop/TasksViewModel.cs:644 | clients are shown by company name |
| Tasks.Keys | WishList/WishList/ViewModel/AdminViewModel/Dop/TasksViewModel.cs:675-693 | the keys of the selected records, in order |
| Tasks.MatchesSearchIff | WishList/WishList/ViewModel/AdminViewModel/Dop/TasksViewModel.cs:664-672 | the search matches exactly when the lower-cased text occurs in title, description, client or status |
| Tasks.FilterTasks | WishList/WishList/ViewModel/AdminViewModel/Dop/TasksViewModel.cs:658-705 | the tests in source order, dates on the due date only; `FilterTasksIff` proves it is their conjunction and `NoDueDateIgnoresDates` that undated tasks ignore the dates |
| Tasks.FilterTasksIff | WishList/WishList/ViewModel/AdminViewModel/Dop/TasksViewModel.cs:658-705 | a task passes exactly when search, the four lists and the due-date bounds, if it has a due date, hold |
| Tasks.NoDueDateIgnoresDates | WishList/WishList/ViewModel/AdminViewModel/Dop/TasksViewModel.cs:695-703 | without a due date the date bounds never matter |
| Tasks.ClearedFilterKeepsUndated | WishList/WishList/ViewModel/AdminViewModel/Dop/TasksViewModel.cs:658-705 | with nothing set, every task without a due date passes |
| Tasks.NewestFirstTotal | WishList/WishList/ViewModel/AdminViewModel/Dop/TasksViewModel.cs:414 | the newest-first order is total |
| Tasks.SortedByCreated | WishList/WishList/ViewModel/AdminViewModel/Dop/TasksViewModel.cs:414 | the load returns a permutation of the table, newest first |
| Tasks.TasksScreen.NothingSelectedClearsLists | WishList/WishList/ViewModel/AdminViewModel/Dop/TasksViewModel.cs:629-693 | with nothing selected, no list constrains the filter and every text is the placeholder |
| Tasks.TasksScreen.constructor | WishList/WishList/ViewModel/AdminViewModel/Dop/TasksViewModel.cs:71-99 | no search, thirty days either side of today, and the load run at once: the tasks newest first, fresh lookup lists, placeholders, the count on the status line |
| Tasks.TasksScreen.UpdateFilteredTasks | WishList/WishList/ViewModel/AdminViewModel/Dop/TasksViewModel.cs:648-656 | the filtered list is the whole list; the view filters it |
| Tasks.TasksScreen.UpdateDisplayText | WishList/WishList/ViewModel/AdminViewModel/Dop/TasksViewModel.cs:629-646 | every text matches its list |
| Tasks.TasksScreen.LoadSupportingData | WishList/WishList/ViewModel/AdminViewModel/Dop/TasksViewModel.cs:567-627 | four fresh lists with nothing selected; managers are the active "Manager" employees |
| Tasks.TasksScreen.LoadTasks | WishList/WishList/ViewModel/AdminViewModel/Dop/TasksViewModel.cs:406-438 | the tasks newest first, copied to the filtered list, the lookup lists rebuilt, and the status line shows "Загружено" with the task count |
| Tasks.TasksScreen.SetSelection | WishList/WishList/ViewModel/AdminViewModel/Dop/TasksViewModel.cs:575-620 | ticking an entry changes that entry only, and the texts follow |
| Tasks.TasksScreen.ClearFilters | WishList/WishList/ViewModel/AdminViewModel/Dop/TasksViewModel.cs:502-518 | no search, the default dates, and every list cleared with its items kept |
| Tasks.TasksScreen.ClearSelections | WishList/WishList/ViewModel/AdminViewModel/Dop/TasksViewModel.cs:509-513 | every list keeps its items and has nothing selected |
| Tasks.TasksScreen.SetTodayFilter | WishList/WishList/ViewModel/AdminViewModel/Dop/TasksViewModel.cs:537-541 | both bounds today |
| Tasks.TasksScreen.SetWeekFilter | WishList/WishList/ViewModel/AdminViewModel/Dop/TasksViewModel.cs:543-549 | the bounds are the corrected week, which holds today |
| Tasks.TasksScreen.SetMonthFilter | WishList/WishList/ViewModel/AdminViewModel/Dop/TasksViewModel.cs:551-556 | the bounds are the first and last day of the month |
| Tasks.TasksScreen.AddTask | WishList/WishList/ViewModel/AdminViewModel/Dop/TasksViewModel.cs:440-454 | only a notice is shown; nothing is added |
| Tasks.TasksScreen.EditTask | WishList/WishList/ViewModel/AdminViewModel/Dop/TasksViewModel.cs:456-472 | only a notice naming the selected task |
| Tasks.TasksScreen.DeleteTask | WishList/WishList/ViewModel/AdminViewModel/Dop/TasksViewModel.cs:474-500 | a confirmed delete removes the task, reloads the tasks and the four lookup lists with nothing selected, clears the busy flag and reports the deletion; otherwise nothing changes, the texts and the status line included |
| SelectedItemsConverter.EntryName | WishList/WishList/Data/Convertes/Admin/SelectedItemsConverter.cs:13-45 | only a selected entry with a non-empty name contributes; `Name` wins over `CompanyName` |
| SelectedItemsConverter.CollectedNames | WishList/WishList/Data/Convertes/Admin/SelectedItemsConverter.cs:13-45 | the collected names are non-empty, at most one per entry |
| SelectedItemsConverter.Convert | WishList/WishList/Data/Convertes/Admin/SelectedItemsConverter.cs:13-45 | the loop gives the joined names, or the placeholder for no names or a value that is not a list |
| SelectedItemsConverter.CollectedNamesStep | WishList/WishList/Data/Convertes/Admin/SelectedItemsConverter.cs:13-45 | one more entry adds its name, if it has one |
| SelectedItemsConverter.CollectedNamesAppend | WishList/WishList/Data/Convertes/Admin/SelectedItemsConverter.cs:13-45 | collecting distributes over concatenation |
| SelectedItemsConverter.ConvertBack | WishList/WishList/Data/Convertes/Admin/SelectedItemsConverter.cs:47-50 | converting back always fails |
| SelectedItemsConverter.NamedEntries | WishList/WishList/Data/Convertes/Admin/SelectedItemsConverter.cs:13-45 | a status or priority entry shows reflection a `Name` property |
| SelectedItemsConverter.ConverterAgreesWithScreen | WishList/WishList/ViewModel/AdminViewModel/Dop/TasksViewModel.cs:629-646 | without empty names, the converter and the screen's own text agree |
| SelectedItemsConverter.CollectedNamesCons | WishList/WishList/Data/Convertes/Admin/SelectedItemsConverter.cs:13-45 | the converter's names of a list are the first entry's name when selected, then the rest's |
| SelectedItemsConverter.SelectedItemsCons | WishList/WishList/ViewModel/AdminViewModel/Dop/TasksViewModel.cs:632 | the selected items of a list are the first item when selected, then the rest's |
| SelectedItemsConverter.NamedNamesAppend | WishList/WishList/ViewModel/AdminViewModel/Dop/TasksViewModel.cs:632 | the names of two lists joined are the two name lists joined |
| SelectedItemsConverter.EmptyNameDiffers | WishList/WishList/Data/Convertes/Admin/SelectedItemsConverter.cs:13-45 | a selected entry with an empty name is dropped by the converter but kept by the screen |

## Left out

- Cryptographic primitives: SHA-256, MD5 and PBKDF2 are library code, so they are the fields of a `Crypto` parameter. Constant-time comparison is modelled as plain equality.
- Database access: the employee, role, client and task tables are sequences passed in and out. Async calls, the change tracker and connections are not modelled; the hard-coded connection string is not modelled either.
- Database semantics: ordering is an ordinal stable sort, and e-mail equality is exact. The server's collation may differ in case and culture.
- Failures in the login and registration forms are `LoginFault` and `DbFault` parameters. As written, the role query's `.Include(ur => ur.Name)` names a plain column, which the query layer refuses on every call; `Login.LoginDecision` therefore always ends in that connection error, and the text of the exception is the `includeError` parameter. `Login.RoleDecision` models the switch that follows the query, which is never reached as written.
- Exceptions in the administration screens' load, save, delete and activate commands are not modelled. Their catch blocks only set messages. `HandleDeleteError` (EmployeesViewModel.cs:684-787) is not modelled.
- Status messages that embed an exception's text (`ex.Message`) are not modelled, since exceptions in the administration screens are not. The "updated" and "created" messages of the save commands are not modelled: the reload that follows at once replaces them with its count.
- Message boxes become a `confirmed` parameter or a returned message. The text listing the tasks that block a delete is not modelled.
- The export commands of the client and task screens only show a message and are not modelled.
- The date slider is not modelled: its thumbs, positions and floating-point conversions (`UpdateSliderProperties`, `UpdateDatesFromThumbPositions`).
- Windows, views and events are not modelled. `OpenAdminWindow` and `OpenManagerWindow` are reduced to the `Window` value returned. The view refresh is reduced to the `Visible` functions. The form switch events are calls.
- The registration form waits two seconds before switching to the login form. The model switches at once.
- `LoginViewModel` declares no `ClearOnSwitch` and no `SwitchToRegisterRequested`, but `MainViewModel.cs` uses both (lines 67 and 89). `MainView.MainWindow.ShowRegisterForm` therefore leaves the login form unchanged.
- `Text.ToLower` covers ASCII, Latin-1 and basic Cyrillic only. Culture rules of `ToLower` and `StartsWith` are not modelled.
- Password lengths count characters, not UTF-16 code units. The two agree outside the supplementary planes.
- `DateTime` arithmetic that leaves the representable range (`AddDays` near year 1 or 9999) is not modelled. The date shortcuts require a valid date.
- A role whose name is `null` would fail the login with an exception. Names are non-null strings here.
- The manager list keeps employees whose role is named "Manager" (TasksViewModel.cs:598). This is modelled as written, even though the role table uses Russian names.
- Deleting a client does not model what the database does with the client's tasks.
- `SelectableItem.Name` and the property-change plumbing of the selectable lists are reduced to `Tasks.TasksScreen.SetSelection`.
- Encoding.Utf8: the contract bounds only the length. The bytes follow RFC 3629 in the body and are otherwise unconstrained in proofs.
- Listing.RenumberAll: the contract states only the length. What each row becomes is stated by `Listing.RenumberKeepsItems`.
- Tasks.SelectedItems: the contract states the size bound and when the result is empty. Membership is stated by `Tasks.SelectedItemsMembers`.
- Employees.SavedTable: for an edit, the contract states only that the size is kept. The per-record effect is `Employees.ApplyEdit` together with `Employees.EditKeepsPasswords`.
- Clients.SavedTable: for an edit, the contract states size and creation times. The field effect is `Clients.ApplyEdit`.
- Login.LoginForm.LoginExecute: follows the corrected decision `Login.LoginDecisionFixed`, not the one as written (`Login.LoginDecision`); see "## Findings".
- Login.LoginForm.DetermineUserRoleAndOpenWindow: follows the corrected role step `Login.RoleDecisionFixed` (role found by the role id, lower-case labels, no refused `Include`), not the one as written; see "## Findings".
- MainView.MainWindow.ExecuteEnterKey: on the login form it runs the corrected `Login.LoginForm.LoginExecute`, so its login outcome is `Login.LoginDecisionFixed`, not the one as written.
- Employees.EmployeesScreen.SetWeekFilter: uses the corrected week, not the one as written, which starts tomorrow on a Sunday; see "## Findings".
- Clients.ClientsScreen.SetWeekFilter: uses the corrected week, not the one as written, which starts tomorrow on a Sunday; see "## Findings".
- Tasks.TasksScreen.SetWeekFilter: uses the corrected week, not the one as written, which starts tomorrow on a Sunday; see "## Findings".

## Findings

| source | as written | input that shows it | evidently intended | confidence | as-written member | corrected member |
|---|---|---|---|---|---|---|
| WishList/WishList/Services/PasswordHasher.cs:22-31 | the base64 test runs before the MD5 test, and every 32-digit hex text is valid base64 | any password stored with `HashPasswordMd5` | MD5 texts are checked as MD5 and verify | high, not executed | PasswordHasher.Md5RoundTripFails | PasswordHasher.FixedMd5RoundTrip |
| WishList/WishList/Services/PasswordHasher.cs:22-26 | the registration form stores the password verbatim, but any alphabet-only password of 4k letters is checked as a SHA-256 text | registering with "abcdefgh", then logging in with "abcdefgh" | a verbatim password verifies against itself | high, not executed | Login.RegisteredUserRejected | Login.RegisteredUserAcceptedFixed |
| WishList/WishList/ViewModel/LoginViewModel.cs:138-155 | `.Include(ur => ur.Name)` names a plain column, which the query layer refuses, so the login ends in "Ошибка подключения: …" (`Login.IncludeAlwaysFails`); past the query, the role is looked up by the user's own id and the lower-cased name is compared with capitalised labels (`Login.RoleDecisionNeverOpens`) | any active user with a verifying password, e.g. role "Администратор": a connection error instead of the administrator window | the role found by `RoleId` opens the administrator or manager window | high, not executed | Login.IncludeAlwaysFails | Login.AdminOpensIff |
| WishList/WishList/ViewModel/AdminViewModel/Dop/EmployeesViewModel.cs:960-966 | the week starts today minus the weekday number plus one | any Sunday: the week starts on the next day | the week holding today, Monday to Sunday | high, not executed | Calendar.WeekRangeSundayStartsTomorrow | Calendar.WeekRangeFixedHoldsToday |
