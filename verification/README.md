# The password wallet: a verified model

A hardware wallet keeps passwords in an FRAM, encrypted under a master key that is stored on an
RFID card. This project models its persistent store and what works on it, and proves what the
code relies on:

- **AES-128, twice.** The device keeps no key schedule: it turns the key buffer into the next
  round key in place and winds it back. The desktop library expands the key. Both are proved
  against one cipher on values, which is proved invertible; so each reads what the other wrote.
- **Credentials.** A block of 170 bytes holds links, use counter, name and two encrypted texts.
  Reading a text after writing it gives it back exactly when it is text.
- **Power cuts.** Every persistent write is recorded in a ghost log, so a method states the
  sequence of its writes, and a cut is a prefix of it. Single edits, picked up by backup_recover
  at power-on, are atomic under any cut, those of the recovery included. A change of the master
  key, cut anywhere and any number of times, loses no credential, and recovery finishes it under
  an exact condition.
- **Random bytes.** They come out of an entropy pool in the FRAM, so that drawing an IV or a key
  writes there. These writes are part of every log and every step sequence, and the pool is the
  one part of the memories that the theorems let change at any time.
- **The index.** Bitmap, counter and two doubly linked lists, threaded through the blocks and
  sorted in place by swapping neighbours. From a zeroed FRAM every sequence of operations, changes
  of the master key among them, keeps all of them in agreement, and each operation has its full
  effect stated. They also agree after every cut of an edit or of a change of key.
- **Serial line.** A resumable parser, fed arbitrary packets, against the printers of the host,
  with the exact condition under which it delivers them; and the FRAM writer behind it.
- **Menu.** A recursive forest flattened to an array of indices, and its walkers on the device.
- **Ascii85.** The text form of a key, in 32-bit arithmetic.

## How it is organised

Code that updates things in place is imperative here too: classes and methods over arrays,
proved against functions on values (`Cipher`, `CbcDecryptText`, `ISort`, `Feed`, `Flat`, the
step sequences of `Rekeying`), about which the theorems are then proved. Where such a function
decides what a byte means - a text, an order, a counter, a digit, the key check - contracts or
lemmas beside it state that in plain numbers.

| files | subject |
|---|---|
| `SBox`, `Field`, `Aes`, `AesDevice`, `AesDesktop`, `Cbc`, `Interop` | the cipher, both programs, and that they agree |
| `Bytes`, `Memory`, `MemoryMap`, `Random`, `Device`, `Views` | the memories, the layout, random bytes, the device with its log |
| `Crash`, `Backup`, `Edits`, `EditRecovery` | power cuts and single edits |
| `Encryption`, `Rekeying`, `RekeyingSafety`, `RekeyingLimits`, `RekeyingByWrites`, `RekeyingFronts` | the change of key, its safety, where it ends, and what it never touches |
| `Index`, `Lists`, `Sorting`, `Links`, `ListSort`, `ListEdits` | the two lists |
| `Consistency`, `PasswordList`, `Navigation`, `Operations`, `Runs` | the store as a whole and every run on it |
| `Framing`, `Packets`, `Streaming`, `Ascii85`, `Menu` | the rest |

`dafny verify dfyconfig.toml` checks everything.

## What the code does that its comments do not say

- The loop over the memory map in Code/src/Security/Encryption.c:76-108 does not reset its inner
  counter, so it stops at the end of the map byte it starts in. The model has a parameter
  `resets`, false for the code as written. `FullCoverage` says exactly when the loop reaches
  everything, `ChangeOutcome` what it leaves behind otherwise.
- Between the new backup id and the status (Code/src/Security/Backup.c:33-35) the status may still
  be CHUNK_OK. The safety theorems count id and status as one step; `CommitByBytes` shows that
  CHUNK_OK is the only case in which that matters, `CutInsideCommit` what goes wrong there, and
  `SafeByWrites` that with single writes as steps a change of key is safe if and only if it
  processes no second credential.
- A cut after the card has the new key and before the status says so loses nothing, but the key
  check then refuses every recovery. Such states are part of the safety theorem;
  `ChangeIsCrashSafe` says that they are the only ones in which recovery does not finish.
- When recovery gives up in the middle of a chunk (Code/src/Security/Backup.c:235), the device
  goes on, and the next edit saves over the only copy of the half-written block; see
  `EditAfterRefusal`.
- get_first_entry_from (Code/src/Security/Password_List.c:16-47) returns 0, not its argument, when
  the store is empty.
- com_process_data does not move its cursor past the data of a command
  (Code/src/Communication/Process.c:76-91); see `DeliveredExactly` and `CursorNotAdvanced`.
- A menu category that is empty links to whatever comes after it, and a stop right behind a
  category that is not empty has no effect; see `NothingIsLost` and `FlatStop`.

- The offsets in the comments of Code/src/Memory/MemoryLayout.h:29-109 are those of an older layout;
  the model has those of the code (`LayoutFits`, `HeadStoredAt`, `BlockStoredAt`).

## Model

| member | source | states |
|---|---|---|
| SBox.CalcSbox | Code/src/Security/Aes.c:329-370 | the computed S-box (sixteen stored inverses, doubling, affine map bit by bit) equals the 256-byte tables, both directions, on every byte |
| SBox.MatXor | Code/src/Security/Aes.c:338-350 | the bit loop adds to its accumulator the product of the argument with a circulant matrix |
| SBox.AlwaysFalls | Code/src/Security/Aes.c:352-359 | doubling brings every byte below 16 within 55 rounds, so the loop ends |
| SBox.InvGf28IsInverse | Code/src/Security/Aes.c:135-144 | the sixteen stored constants are the inverses that the S-box table holds for the bytes below 16 |
| Field.InverseIsInverse | Code/src/Security/Aes.c:352-359 | those are the inverses: with the product of GF(2^8) modulo x^8+x^4+x^3+x+1 (section 4.2 of FIPS 197), x times the inverse of x is 1 for every x but 0 |
| SBox.TablesInverse | library/AES/Aes.cpp:81-119 | the two tables invert each other, and the inverse table is inversion after the inverse affine map |
| Aes.SubInverse | library/AES/Aes.cpp:344-354 | byte substitution and its inverse undo each other on every state |
| Aes.ShiftInverse | library/AES/Aes.cpp:356-384 | shifting rows and its inverse undo each other on every state |
| Aes.MixInverse | library/AES/Aes.cpp:323-340 | mixing columns is undone by its inverse on every state |
| Aes.PrevNextKey | Code/src/Security/Aes.c:440-510 | stepping the 16-byte key back undoes stepping it forward, for every key and round constant |
| Aes.InvCipherOfCipher | Code/src/Security/Aes.c:739-775 | deciphering undoes enciphering for every key and block (section 5.3 of FIPS 197) |
| AesDevice.Cipher128.AddRoundKey | Code/src/Security/Aes.c:440-471 | in one pass over one buffer: the state gets the old round key added, the key becomes the next round key, Rcon is doubled; a null state only advances the key |
| AesDevice.Cipher128.InvAddRoundKey | Code/src/Security/Aes.c:477-510 | the same backwards: the key becomes the previous round key, which is added to the state |
| AesDevice.Cipher128.SubState | Code/src/Security/Aes.c:516-537 | substitutes the 16 bytes at an offset and no other byte |
| AesDevice.Cipher128.ShiftState | Code/src/Security/Aes.c:594-632 | rotating row by row, one swap at a time, shifts the rows of section 5.1.2 (or 5.3.1) of FIPS 197 |
| AesDevice.Cipher128.MixState | Code/src/Security/Aes.c:702-735 | the column step with running sums computes MixColumns or its inverse |
| AesDevice.Cipher128.Encipher | Code/src/Security/Aes.c:739-754 | the block becomes its encipherment, the key buffer the last round key |
| AesDevice.Cipher128.Decipher | Code/src/Security/Aes.c:759-775 | from the last round key, the block becomes its decipherment and the key buffer the original key again |
| AesDevice.Cipher128.KeyRewind | Code/src/Security/Aes.c:779-788 | brings the last round key back to the original key |
| AesDevice.Cipher128.KeyPatch | Code/src/Security/Aes.c:791-799 | brings the original key to the last round key |
| AesDevice.Cipher128.EncryptBuffer | Code/src/Security/Aes.c:810-821 | CBC encryption in place of the whole blocks of a buffer; the key is as before |
| AesDevice.Cipher128.DecryptBuffer | Code/src/Security/Aes.c:823-870 | CBC decryption that overwrites the IV and returns at the first block with a zero computes exactly the early-ending decryption; the key is as before even on the early return |
| AesDesktop.Library.KeyExpansion | library/AES/Aes.cpp:155-218 | fills the 176 bytes with the eleven round keys of the key |
| AesDesktop.Library.AddRoundKey | library/AES/Aes.cpp:222-232 | adds round key number `round` to the state |
| AesDesktop.Library.SubTable | library/AES/Aes.cpp:236-247 | table substitution of the whole state, both directions |
| AesDesktop.Library.ShiftRowsByHand | library/AES/Aes.cpp:251-277 | the unrolled assignments shift the rows |
| AesDesktop.Library.InvShiftRowsByHand | library/AES/Aes.cpp:356-384 | the unrolled assignments shift the rows back |
| AesDesktop.Library.MixColumnsByHand | library/AES/Aes.cpp:285-298 | the xtime form computes MixColumns |
| AesDesktop.Library.InvMixColumnsByHand | library/AES/Aes.cpp:323-340 | the GF(2^8) products compute the inverse of MixColumns |
| AesDesktop.InvMixIsProduct | library/AES/Aes.cpp:302-340 | the products with 0e, 0b, 0d, 09 equal the device form of the inverse column step, for every column |
| AesDesktop.RconTableIsRcon | library/AES/Aes.cpp:122-140 | the round constants read from the table are the doubled ones of the device |
| AesDesktop.Library.Encipher | library/AES/Aes.cpp:386-409 | with the expanded key, the same cipher as the device |
| AesDesktop.Library.Decipher | library/AES/Aes.cpp:411-434 | with the expanded key, the same inverse cipher as the device |
| AesDesktop.Library.EncryptBuffer | library/AES/Aes.cpp:460-498 | CBC encryption from one buffer to another, although the IV pointer runs through the output |
| AesDesktop.Library.DecryptBuffer | library/AES/Aes.cpp:500-542 | CBC decryption from one buffer to another |
| Cbc.CbcRoundTrip | Code/src/Security/Aes.c:810-870 | CBC decryption undoes CBC encryption for every key, IV and data (section 6.2 of NIST SP 800-38A) |
| Cbc.StripDecryptText | Code/src/Security/Password.c:31-47 | once the padding is stripped, the decryption that stops at the first zero cannot be told from the full one |
| Cbc.StripIsText | Code/src/Security/Password.c:37-46 | stripping leaves a buffer alone if and only if it is text, always gives a text, and stripping twice is stripping once |
| Cbc.TextIs | Code/src/Security/Password.c:37-46 | a text is bytes whose numbers are at least 32, followed by zeros, and nothing else is |
| Cbc.StrippedIs | Code/src/Security/Password.c:37-46 | stripping keeps the bytes before the first whose number is below 32 and zeroes that one and all behind it |
| Interop.SameSchedule | library/AES/Aes.cpp:155-218 | after r rounds in place the key buffer of the device is bytes 16r to 16r+15 of the expanded key of the library, for r from 0 to 10 (section 5.2 of FIPS 197) |
| Interop.DesktopReadsDevice | library/AES/Aes.cpp:500-542 | what the device encrypts, the library decrypts, and the device has its key back |
| Interop.DeviceReadsDesktop | Code/src/Security/Aes.c:823-870 | what the library encrypts, the device reads as the same text |
| Memory.LayoutFits | Code/src/Memory/MemoryLayout.h:26-112 | the offsets of backup area and texts as numbers; a block lies within the FRAM exactly for ids below the capacity, which is one less than MAXIMUM_NUMBER_OF_PWD; every id has a bit in the memory map |
| Bytes.BitIs | Code/src/Security/Password_List.c:30-38 | bit j of a byte of the memory map is the one with value 2^j |
| Device.Wallet.FramReadBytes | Code/src/Hardware/Fram.c:115-131 | copies a stretch of the FRAM to the front of a buffer |
| Device.Wallet.FramWriteByte | Code/src/Hardware/Fram.c:133-153 | changes one byte, and is one write to the log |
| Device.Wallet.FramWriteBytes | Code/src/Hardware/Fram.c:156-175 | changes one stretch, byte after byte in the log |
| Device.Wallet.FramSet | Code/src/Hardware/Fram.c:177-195 | fills one stretch, byte after byte in the log |
| Device.Wallet.ReadId | Code/src/Security/Password.c:23-28 | reads the number of two bytes, the first plus 256 times the second |
| Device.Wallet.WriteId | Code/src/Security/Password.c:13-20 | writes the remainder modulo 256 and then the next eight bits, in two single writes |
| Device.Wallet.WriteKeyToCard | Code/src/Security/Authentification.c:188-199 | the key block of the card becomes the given key, in one write |
| Device.Wallet.WriteTempKeyToCard | Code/src/Security/Authentification.c:188-199 | the temporary key block of the card becomes the given key, in one write |
| Device.Wallet.RandomSaveEntropy | Code/src/Security/Random.c:102-119 | nothing happens while the timer has gathered nothing or the pool has no room for four bytes; else four fresh bytes are put behind the pool, which grows by four; the log has exactly these writes |
| Device.Wallet.RandomRequestByte | Code/src/Security/Random.c:121-135 | waits until the pool is not empty, hands out its last byte, or of four fresh ones the last if it was empty, clears its place and takes it off the pool; the log has exactly these writes |
| Device.Wallet.DrawBlock | Code/src/Security/Password.c:54-58 | sixteen bytes; only the pool changes, and the log has the writes of all draws in order |
| Device.StripPadding | Code/src/Security/Password.c:37-46 | keeps the bytes before the first whose number is below 32, zeroes it and all behind it |
| Device.Wallet.ReadAndDecrypt | Code/src/Security/Password.c:31-47 | of the full CBC decryption of what the FRAM holds, the bytes before the first whose number is below 32, and zeros for the rest, although decryption stops early; the key comes back unchanged |
| Device.Wallet.EncryptAndWrite | Code/src/Security/Password.c:50-66 | the FRAM changes in the entropy pool, the IV field and the text field only, the latter to the IV drawn and the CBC encryption; the log is the draws, the IV and then the text |
| Device.Wallet.ReadData | Code/src/Security/Password.c:68-73 | reads the password field of a block |
| Device.Wallet.ReadUsrName | Code/src/Security/Password.c:75-78 | reads the user name field of a block |
| Device.DataOfIs | Code/src/Memory/MemoryLayout.h:96-100 | the password of credential id: its IV at 42 and its text at 58 of the block at 535 + 170 id |
| Device.UsrOfIs | Code/src/Memory/MemoryLayout.h:102-108 | the user name: IV at 90, text from 106 to the end of the block |
| Device.Wallet.SetData | Code/src/Security/Password.c:113-116 | replaces the password field of a block and changes nothing else but the entropy pool |
| Device.Wallet.SetUsrName | Code/src/Security/Password.c:119-122 | replaces the user name field of a block and changes nothing else but the entropy pool |
| Device.CredentialRoundTrip | Code/src/Security/Password.c:31-66 | for every key and IV, reading what was written gives the stripped text, so it gives the text back if and only if that is bytes of at least 32 followed by zeros |
| Device.OtherTextKept | Code/src/Security/Password.c:50-66 | writing one field leaves what every other field reads as, under any key |
| Views.ViewIsAll | Code/src/Memory/MemoryLayout.h:26-112 | the parts that the theorems on power cuts speak of are all of the persistent memories except the entropy pool: equal views if and only if equal outside the pool |
| Backup.BackupSave | Code/src/Security/Backup.c:24-36 | writes copy, id and status, in this order; they are then the block, its id and the status given, and nothing else has changed |
| Backup.BackupRestore | Code/src/Security/Backup.c:38-56 | nothing for status OK, else the block named in the backup holds the copy again, the status is OK, and nothing outside that block and the backup area has changed |
| Backup.BackupPartialRestore | Code/src/Security/Backup.c:58-67 | the block named in the backup holds the copy again, and nothing else has changed |
| Backup.BackupFree | Code/src/Security/Backup.c:69-77 | status OK first, then the copy and the id are zeroed; nothing else changes |
| Backup.EditPhases | Code/src/Options/Options_Callback_Password.c:117-121 | after any number of writes of an edit, its random draws included: until the status is written the block is the old one, then the backup holds it, and from the freeing on the block is the new one |
| Backup.RecoveryPhases | Code/src/Security/Backup.c:99-104 | recovery, cut after any number of its writes, stays within those phases |
| EditRecovery.EditIsAtomic | Code/src/Security/Backup.c:86-104 | an edit cut after any write, then any number of power-ons that run backup_recover, each cut anywhere, whatever the card does, then one that is not cut: status OK, nothing outside block, backup area and entropy pool has changed, and the block is the old one or the new one - the new one exactly if the cut came after the status write of the freeing |
| EditRecovery.PowerOnPhases | Code/src/Security/Backup.c:86-104 | one power-on, cut after any step of backup_recover, keeps an edit in its phases, and uncut leaves nothing pending |
| EditRecovery.TextIsAtomic | Code/src/Options/Options_Callback_Password.c:74-155 | so for a typed password, a typed user name and a drawn password, cut also between two random draws: in the end the text reads as typed or drawn, or as before, which depends on the cut of the edit only; the other text, name, counter and links are as before |
| Edits.ChangePwd | Code/src/Options/Options_Callback_Password.c:99-126 | the password reads as the new text, the user name, name, counter, links and everything outside block, backup area and entropy pool are as before; the writes are save, random draws, text, free |
| Edits.ChangeUsrName | Code/src/Options/Options_Callback_Password.c:129-155 | the same for the user name |
| Edits.PrintableGrows | Code/src/Security/Random.c:139-153 | a drawn byte gives the character of half its number plus 32 if that half is below 94, else none |
| Encryption.MemCmp | Code/src/Security/Security.c:15-47 | true if and only if the two buffers agree in all bytes |
| Encryption.CheckKey | Code/src/Security/Encryption.c:23-39 | true if and only if the second half of the EEPROM pair is the encipherment of the first under the key; the key comes back unchanged |
| Encryption.KeyMatchesIs | Code/src/Security/Encryption.c:23-39 | the same for the check on values, with CBC and an IV of zeros as in the code |
| Encryption.HalfChangedIsRefused | Code/src/Security/Encryption.c:23-39 | a pair that passes and of which one half is changed does not pass |
| Encryption.UpdateValidation | Code/src/Security/Encryption.c:42-65 | writes each byte of the random sequence as it is drawn, then the encryption of the sequence, byte after byte: the second half of the pair is the encipherment of the first, which is what was drawn; the key comes back unchanged |
| Encryption.StoreRandomSequence | Code/src/Security/Encryption.c:42-53 | its first loop: draw and EEPROM write take turns, and the buffer holds what was stored |
| Encryption.StoreValidation | Code/src/Security/Encryption.c:60-64 | its second loop: the second half of the pair, byte after byte |
| Encryption.ValidationMatches | Code/src/Security/Encryption.c:23-65 | after these writes the key check accepts this key, and nothing but EEPROM and entropy pool has changed |
| Encryption.RekeyedReadsSame | Code/src/Security/Encryption.c:93-98 | a rekeyed block reads under the new key as the old block under the old key, with the same front |
| Encryption.SameSecretsIs | Code/src/Security/Encryption.c:93-98 | what is compared there is what the device reads as password and user name, and the part of the block before them |
| Encryption.RekeySecrets | Code/src/Security/Encryption.c:93-98 | the writes that replace the two texts of a block, with the draws of both IVs: both read under the new key as before under the old one, and nothing outside the enciphered part of the block and the entropy pool has changed |
| Encryption.RekeyChunk | Code/src/Security/Encryption.c:90-104 | the writes of one credential: save, draws and texts, status CHUNK_OK |
| Encryption.RekeyByte | Code/src/Security/Encryption.c:78-107 | the inner loop: exactly the used ids of one map byte, from the given bit on |
| Encryption.UpdateKey | Code/src/Security/Encryption.c:68-110 | the writes are the chunks of exactly the ids the loop reaches, as written and with the inner counter reset; the key in RAM becomes the new one |
| Encryption.ProcessedIds | Code/src/Security/Encryption.c:72-79 | the loop processes an id if and only if it is in use, not below the start, and in the map byte of the start unless the inner counter is reset |
| Encryption.FullCoverage | Code/src/Security/Encryption.c:72-79 | the loop processes all used ids if and only if its counter is reset or no id past the first map byte is in use |
| Encryption.CoverageFrom | Code/src/Security/Encryption.c:72-79 | under that condition, from any start it processes all used ids not below the start |
| Encryption.RekeyMeaning | Code/src/Security/Encryption.c:68-110 | for any FRAM contents, every processed credential reads under the new key as it did under the old, every other block is byte for byte as before, and so are lists, counter, map, card and EEPROM: all but backup area and entropy pool |
| Rekeying.UpdateCardAndFinish | Code/src/Security/Backup.c:210-233 | the end of a change of key, from the card on or from the validation on; gives up if the card does not accept the key |
| Rekeying.UpdateKeyAndFinish | Code/src/Security/Authentification.c:139-161 | rekeying, status UPDATE_CARD, and that end |
| Rekeying.UserChangeKey | Code/src/Security/Authentification.c:96-172 | the exact sequence of FRAM, card and EEPROM writes of a change of key, from the draws of the new key on, and the key in RAM afterwards; without a card only the entropy pool changes |
| Rekeying.Resume | Code/src/Security/Backup.c:173-202 | the exact writes of resuming at the saved id, or after it when its chunk was complete |
| Rekeying.BackupRecover | Code/src/Security/Backup.c:86-241 | for status UPDATE, whatever the card does: status OK, the block named in the backup is the copy, and nothing outside that block and the backup area has changed; for status OK, or a card that is refused, nothing at all; for every status the exact writes and the key in RAM afterwards |
| RekeyingSafety.ChunkSafe | Code/src/Security/Encryption.c:90-104 | no cut while one credential is rekeyed leaves a state that recovery cannot pick up |
| RekeyingSafety.RekeySafe | Code/src/Security/Encryption.c:68-110 | the same for the whole loop from any id on |
| RekeyingSafety.RecoverySafe | Code/src/Security/Backup.c:86-241 | recovery cut after any of its steps is again in such a state |
| RekeyingSafety.RestartsSafe | Code/src/Security/Backup.c:86-241 | so is any number of interrupted recoveries |
| RekeyingSafety.SafeIsReadable | Code/src/Security/Backup.c:111-114 | in such a state every used credential reads, from its block under the old or the new key or from the backup under the old key, as before the change, and the card holds that key |
| RekeyingSafety.ReadableIs | Code/src/Security/Backup.c:111-114 | readable means that password and user name read as at the start, from the block with a key on the card or from the copy with the key on the card |
| RekeyingSafety.ChangeSafe | Code/src/Security/Authentification.c:96-172 | every step of a change of key keeps such a state, and an uninterrupted one finishes: all credentials under the new key, card and EEPROM agreeing, status OK |
| RekeyingSafety.FinishedIs | Code/src/Security/Authentification.c:96-172 | finished means: status OK, the new key on the card, the second half of the EEPROM pair its encipherment of the first, every used credential reads under the new key as at the start under the old one, all other blocks, list heads, counter and map as at the start |
| RekeyingSafety.RecoveryCompletes | Code/src/Security/Backup.c:157-233 | an uninterrupted recovery with a working card finishes the change if and only if the status is VALIDATION or the key check passes; when it passes after a change that began with a good key is OnlyGapRefuses |
| RekeyingSafety.OnlyGapRefuses | Code/src/Security/Backup.c:157-171 | if the old key passed the check when the change began, then in every safe state the check passes or is not made, unless the card has the new key and the status is still UPDATE_CARD (and the new key does not pass by chance) |
| RekeyingSafety.ChangeIsCrashSafe | Code/src/Security/Authentification.c:96-172 | the whole: a change of key cut anywhere, followed by any number of interrupted recoveries, leaves every used credential readable; if the old key passed the check at the start, the next uninterrupted recovery finishes if and only if the cut did not come between the write to the card and the status after it (or the new key passes by chance) |
| RekeyingLimits.ChangeOutcome | Code/src/Security/Encryption.c:72-79 | as written, an uninterrupted change rekeys exactly the used ids below 8 and leaves every other block, although the card then holds the new key only; if the card refuses the new key, it keeps the old one and the status is UPDATE_CARD |
| RekeyingLimits.RekeyOutcome | Code/src/Security/Encryption.c:68-110 | what rekeying any list of ids and updating the card, which may refuse, leaves, block by block |
| RekeyingLimits.CommitByBytes | Code/src/Security/Backup.c:33-35 | writing id and status one byte at a time is safe whenever the status is not CHUNK_OK |
| RekeyingLimits.CutInsideCommit | Code/src/Security/Backup.c:187-189 | with status CHUNK_OK a cut between id and status makes recovery skip that credential: it stays under the old key while the card gets the new one |
| RekeyingLimits.EditAfterRefusal | Code/src/Security/Backup.c:120-145 | an edit while the status is CHANGE_KEY overwrites the copy of the half-written block with its own and ends with nothing to recover; the credential is readable only if the half-written block is |
| RekeyingByWrites.SafeByWrites | Code/src/Security/Backup.c:24-36 | with every single write a step, every cut of a change of key is safe if and only if at most one credential is processed (given that the second one does not read the same under both keys) |
| RekeyingByWrites.RecoverySafeByWrites | Code/src/Security/Backup.c:157-233 | the same for a recovery: every cut of it is safe if and only if it is refused or processes no credential but the one whose chunk it begins again |
| RekeyingByWrites.SecondIsReached | Code/src/Security/Encryption.c:90-104 | every change that processes two credentials comes to a state as CutInsideCommit describes it |
| RekeyingByWrites.CutInsideCommitExists | Code/src/Security/Encryption.c:90-104 | such a state for every key, from a store with the credentials 0 and 1 |
| RekeyingFronts.CutChangeKeeps | Code/src/Security/Encryption.c:68-110 | a change of key, with the loop as written or as intended, cut after any step and its recovery any number of times: list heads, counter, map and the front of every block are as before |
| Links.SwapNeighbours | Code/src/Security/Password_List.c:374-397 | two neighbours change places and nothing but links of that order changes |
| Links.ToUpper | Code/src/Security/Password_List.c:455-463 | the letters a to z up to the terminating zero become capital, and nothing else changes |
| Links.UpperIs | Code/src/Security/Password_List.c:455-463 | as numbers: 97 to 122 lose 32, all others stay |
| Links.CStrEnds | Code/src/Security/Password_List.c:455-463 | a C string is the bytes before the first zero of its buffer |
| Links.GoesBefore | Code/src/Security/Password_List.c:425-428 | by use: the number in the counter field is greater; by name: at the first place where the upper-cased names differ, the current one has ended or has the byte with the lower number |
| Links.BlockStoredAt | Code/src/Memory/MemoryLayout.h:75-94 | links, counter and name of credential id are the bytes 0 to 41 from 535 + 170 id on, numbers low byte first |
| Links.HeadStoredAt | Code/src/Memory/MemoryLayout.h:26-61 | list heads at 1 and 3, NUM_PWD at 5, the memory map from 263 on, eight ids to a byte, the low bit first |
| Sorting.LessIs | Code/src/Security/Password_List.c:490 | one name comes before another if and only if it ends or has the lower byte at the first place where they differ |
| Lists.Swapped | Code/src/Security/Password_List.c:374-397 | a swap of neighbours is a swap in the sequence that the links spell |
| Sorting.SortIsStable | Code/src/Security/Password_List.c:408-447 | insertion sort as a function gives a sorted permutation with equal keys in their old order |
| ListSort.MoveUp | Code/src/Security/Password_List.c:428-444 | the inner loop moves one entry up to its place and reports where the entry it last passed ends up, with the stored first id kept right |
| ListSort.Sort | Code/src/Security/Password_List.c:408-510 | the in-place sort of either list ends, although its cursor steps back, and gives the stably sorted list; only links and head of that list change |
| ListEdits.Appended | Code/src/Security/Password_List.c:324-352 | linking a new id behind the last one appends it to the list |
| ListEdits.Unlinked | Code/src/Security/Password_List.c:227-272 | linking the neighbours of an id to each other takes it out of the list, first id and empty list included |
| Consistency.ZeroedIsConsistent | Code/src/Memory/MemoryLayout.h:26-60 | a zeroed FRAM is a consistent empty store |
| Consistency.Pigeonhole | Code/src/Security/Password_List.c:291-312 | a list of distinct ids that holds all ids below k has at least k of them |
| Consistency.Resorted | Code/src/Security/Password_List.c:408-510 | sorting a list keeps map, counter and list in agreement |
| Consistency.OrderedByUse | Code/src/Security/Password_List.c:408-447 | along the list by use the numbers in the counter fields do not grow |
| Consistency.OrderedByName | Code/src/Security/Password_List.c:466-510 | for any two names in the list by name, upper-cased: at the first place where they differ the earlier one has ended or has the lower byte |
| Consistency.FrontsKeepConsistent | Code/src/Memory/MemoryLayout.h:26-112 | agreement of map, counter and lists depends on nothing but list heads, counter, map and the fronts of the blocks |
| PasswordList.TakeFreeChunk | Code/src/Security/Password_List.c:288-316 | finds the least free id and sets its bit and no other byte or bit, or reports that there is none |
| PasswordList.FirstFreeIsSmall | Code/src/Security/Password_List.c:291-312 | by pigeonhole the first free id is at most the number of credentials, and it is in neither list; in an empty store it is 0 |
| PasswordList.FillBlock | Code/src/Security/Password_List.c:354-360 | counter, name and both texts of the new block; links, other blocks and everything else but the entropy pool untouched |
| PasswordList.AddPwd | Code/src/Security/Password_List.c:288-371 | the new credential gets the first free id, reads back as given, is last by use and inserted by name; all others keep all but their links; map, counter and both sorted lists agree |
| PasswordList.UnlinkFrom | Code/src/Security/Password_List.c:227-249 | unlinking in one order, with every case of the ends |
| PasswordList.DeletePwd | Code/src/Security/Password_List.c:219-286 | the credential is gone from both lists, its block zeroed, all others keep all but their links; map, counter and lists agree |
| Navigation.NextUndoesPrev | Code/src/Security/Password_List.c:84-101 | going on and going back undo each other in every list of distinct ids |
| Navigation.OneCycle | Code/src/Security/Password_List.c:172-189 | going on from any id reaches every other after exactly one number of steps below the length, and itself after the length |
| Navigation.PrevSorted | Code/src/Security/Password_List.c:143-169 | the id before in a sorted list, before the first one the last |
| Navigation.NextSorted | Code/src/Security/Password_List.c:197-217 | the id behind in a sorted list, behind the last one the first |
| Navigation.FirstEntryFrom | Code/src/Security/Password_List.c:19-47 | the first used id from an index on, else the first of all, else 0 |
| Navigation.FirstEntryIs | Code/src/Security/Password_List.c:19-47 | that is the least id in use not below the index, else the least of all |
| Navigation.PrevSortNone | Code/src/Security/Password_List.c:107-141 | the last used id below the given one, else the last of all, else MAXIMUM_NUMBER_OF_PWD |
| Navigation.PrevEntryIs | Code/src/Security/Password_List.c:107-141 | that is the greatest id in use below the given one, else the greatest of all |
| Navigation.MapIsCycle | Code/src/Security/Password_List.c:107-141 | both agree with the order of the map: they are its next and previous |
| Navigation.Show | Utility/memory_editor/src/Command.cpp:113-132 | the do-while walk ends and visits every used id once, in ascending order |
| Operations.EveryModeIsOneCycle | Code/src/Security/Password_List.c:84-101 | in each of the three modes the order is a ring of exactly the used ids, NUM_PWD long |
| Operations.FirstPwdId | Code/src/Security/Password_List.c:49-66 | the first id of the list that the mode stands for, or of the memory map; 0 in an empty store |
| Operations.PrevPwdId | Code/src/Security/Password_List.c:84-101 | the id before in the list that the mode stands for, or in the memory map |
| Operations.NextPwdId | Code/src/Security/Password_List.c:172-189 | the id behind in the list that the mode stands for, or in the memory map |
| Operations.OptAddPwd | Code/src/Options/Options_Callback_Password.c:19-72 | refused exactly when the store is full, and then without effect; else the effect of AddPwd |
| Operations.OptDeletePwd | Code/src/Options/Options_Callback_Password.c:174-190 | the current id is afterwards the previous one of the mode, and in use, or 0 in an empty store |
| Operations.OptChangeName | Code/src/Options/Options_Callback_Password.c:158-171 | the entry has the new name, counter and secrets as before; the list by name is sorted again, the list by use and all else as before |
| Operations.OptSendPwd | Code/src/Options/Options_Callback_Password.c:192-200 | types the password up to its first zero, counts one use more, 65535 being followed by 0, with name and secrets as before, and sorts the list by use again |
| Operations.IncrementCounter | Code/src/Security/Password.c:154-158 | the counter is one more, 65535 being followed by 0, and nothing else in the FRAM changes |
| Operations.EditKeepsConsistent | Code/src/Options/Options_Callback_Password.c:99-155 | an edit that changes one block behind its front keeps map, counter and lists in agreement |
| Runs.Perform | Code/src/FSM/States/State_Main.c:25-63 | each operation, a change of the master key that the card accepts or refuses and moving through the list included, has its stated effect on FRAM, key, both lists and current id, and keeps them in agreement |
| Runs.Run | Code/src/FSM/States/State_Main.c:25-63 | from a zeroed FRAM every sequence of operations goes through states each of which is the stated effect of its operation on the one before, and in all of which NUM_PWD, map and both sorted lists agree and no backup is pending; a card that refuses a new key stops the device |
| Runs.CutEditKeepsConsistent | Code/src/Options/Options_Callback_Password.c:74-155 | an edit of password or user name cut after any write, then any number of power-ons with cut recoveries and one that is not cut, keeps map, counter and both lists in agreement |
| Runs.CutChangeKeepsConsistent | Code/src/Security/Authentification.c:96-172 | a change of the master key, with the loop as written or as intended, cut after any step, with its recovery cut any number of times, keeps map, counter and both lists in agreement |
| Ascii85.Encode16B | Code/src/Graphics/Ascii85.c:20-38 | the loops with a running remainder compute the base-85 digits of the four words |
| Ascii85.Decode16B | Code/src/Graphics/Ascii85.c:40-59 | the 32-bit sums compute the words of the four groups |
| Ascii85.EncodeOfGroup | Code/src/Graphics/Ascii85.c:20-38 | one group in numbers: four bytes, highest first, give the five base-85 digits, highest first, from 33 on |
| Ascii85.DecodeOfGroup | Code/src/Graphics/Ascii85.c:40-59 | five characters, signed and less 33, add up with the powers of 85 modulo 2^32 to the four bytes, highest first |
| Ascii85.EncodeAppend | Code/src/Graphics/Ascii85.c:20-38 | any number of groups is encoded group by group |
| Ascii85.DecodeAppend | Code/src/Graphics/Ascii85.c:40-59 | and decoded group by group |
| Ascii85.EncodeRoundTrip | Code/src/Graphics/Ascii85.c:20-59 | decoding undoes encoding, and every character is between ! and u, for any number of groups |
| Ascii85.DecodeRoundTrip | Code/src/Graphics/Ascii85.c:20-59 | encoding undoes decoding if and only if every group has digits in range and a value below 2^32 |
| Ascii85.GroupConverse | Code/src/Graphics/Ascii85.c:40-59 | the same for one group |
| Framing.ToByteArray | Utility/desktop_app_v2/desktop2/SerialCommand.cpp:89-109 | prints the id, the size in three bytes with the low one first, and the data of a command, or refuses more than 65535 bytes |
| Framing.Receiver.ReadHeader | Code/src/Communication/Process.c:38-62 | reads as much of a header as there is, and what is left to read then means the same as before |
| Framing.Receiver.TakeData | Code/src/Communication/Process.c:65-91 | hands over the part of the data that is there, and leaves the cursor on it |
| Framing.Receiver.ProcessData | Code/src/Communication/Process.c:25-93 | the loop ends, and calls com_exec exactly as the parser on values does |
| Framing.FeedDelivers | Code/src/Communication/Process.c:25-93 | one packet, from any point in a stream of commands: the calls deliver the next bytes and the parser stays in step |
| Framing.DeliveredIs | Code/src/Communication/Process.c:76-91 | what delivered means: the calls carry the data of the commands in order, each call has id and size of a command, and no command is left out |
| Framing.FramingIsPacketIndependent | Code/src/Communication/Process.c:25-93 | a stream of commands cut into any packets, none going on behind a command with data: every command is delivered with its id, its size and its data in order, nothing else is, and the parser ends idle |
| Packets.DeliveredExactly | Code/src/Communication/Process.c:25-93 | for any packets, whatever they hold: all commands are delivered with id, size and data in order, nothing else is, and the parser is idle, if and only if the bytes the parser consumes, the data of a command read again as often as the code does, are the bytes of the commands |
| Packets.AlignedAreDelivered | Code/src/Communication/Process.c:25-93 | packets of which none goes on behind a command with data are consumed as they are, so their commands are delivered |
| Packets.CursorNotAdvanced | Code/src/Communication/Process.c:76-91 | two commands in one packet, the first with one byte of data, are not delivered, whatever their ids: the data is read again as the id of the second |
| Streaming.SendSlice | Utility/transfer_fram/transfer_fram/main.cpp:261-274 | prints the SET_FRAM command: 32, the size and the position in three bytes each with the low one first, and the bytes |
| Streaming.Writer.SetFram | Code/src/Communication/Commands.c:230-252 | each part extends what is written to the FRAM by its bytes, also when the address is cut; the last one answers COM_OK and resets both counters |
| Streaming.Writer.ComExec | Code/src/Communication/Commands.c:86-125 | that, or only an error before communication has begun |
| Streaming.ReceivePacket | Code/src/Communication/Process.c:25-93 | com_process_data with com_exec called inside its loop: after a packet parser and FRAM are as the calls of the parser on values say |
| Streaming.Transfer | Code/src/Communication/Process.c:25-93 | the command of send_slice, delivered in any non-empty packets, leaves the old FRAM with the bytes at the position, one COM_OK more, and parser and counters idle |
| Menu.Structure | Utility/option_parser/parser.py:57-114 | for every forest: fatal if and only if some list begins with a stop, else the array in which each node links to the next of its list and to what is inside it |
| Menu.OffsetFlat | Utility/option_parser/parser.py:58-63 | relocating what was flattened on its own gives what flattening in place gives |
| Menu.FlatStop | Utility/option_parser/parser.py:68-75 | a stop cuts the list after an item with nothing inside, and is lost after other categories |
| Menu.FlatForward | Utility/option_parser/parser.py:57-114 | all links go strictly forward and stay inside, if no category is empty |
| Menu.NothingIsLost | Utility/option_parser/parser.py:57-114 | links go forward and stay inside, and from every item at any depth they show the rest of its list up to the stop that cuts it, if and only if no category is empty |
| Menu.AllShown | Utility/option_parser/parser.py:57-114 | without stops what is shown is the whole forest |
| Menu.NodeAt | Code/src/Options/Options.c:80-88 | the item at a position of the list, or its last one; the walk ends |
| Menu.DrawNodes | Code/src/Options/Options.c:21-41 | the number of items of the list modulo 256; the walk ends |

## Left out

- RekeyingSafety.ChangeIsCrashSafe: counts writing the backup id and the status as one step, because cut between them the property is false (RekeyingLimits.CutInsideCommit); begins with status OK, the key in RAM being the one on the card, and a loop that covers the ids in use (Encryption.FullCoverage).
- RekeyingSafety.RecoverySafe: has the same conditions.
- RekeyingSafety.ChunkSafe: has id and status of the backup as one step, too.
- RekeyingSafety.RekeySafe: has id and status of the backup as one step, too.
- RekeyingSafety.RestartsSafe: has id and status of the backup as one step, too.
- RekeyingSafety.ChangeSafe: has id and status of the backup as one step, too; RekeyingByWrites.SafeByWrites says when they need not be.
- RekeyingByWrites.SafeByWrites: the second credential must not read the same under both keys, which no cipher excludes; the loop covers the ids in use.
- RekeyingByWrites.RecoverySafeByWrites: the same of the next credential to be processed.
- EditRecovery.EditIsAtomic: the edit begins with status OK, as every operation of a run does (Runs.Run); after a recovery that has given up it need not, see RekeyingLimits.EditAfterRefusal.
- EditRecovery.TextIsAtomic: begins with status OK, too; a drawn password is the writes of opt_callback_regenerate_pwd; its loops, which reject bytes until one is printable, are a function of the bytes drawn, and that they end is left out, as it depends on those bytes.
- Runs.CutEditKeepsConsistent: begins with status OK, too.
- Device.Wallet.RandomRequestByte: what the timer gathers, and how often it is asked in vain before, are parameters, so that waiting ends; that a drawn byte is random is not modelled.
- Rekeying.BackupRecover: for the statuses that some operation writes, a saved id that has a block, and in the middle of a change of key memory maps whose bit 767 is clear.
- Encryption.UpdateKey: for memory maps whose bit 767 is clear; the guard of opt_callback_add_pwd never lets it be set.
- AesDesktop.Library.EncryptBuffer: whole blocks only and at least one; the branch for a rest of less than 16 bytes and the reuse of key and IV through null pointers are not modelled.
- AesDesktop.Library.DecryptBuffer: whole blocks only and at least one, as above.
- AesDevice.Cipher128.EncryptBuffer: at most 240 bytes and whole blocks, as all callers have; beyond that the 8-bit index of the code wraps around. The C alternatives of the inline assembly, as for all of Code/src/Security/Aes.c.
- AesDevice.Cipher128.DecryptBuffer: at most 240 bytes and whole blocks, as above.
- Encryption.MemCmp: the C code given in the comment, the assembly is not modelled.
- PasswordList.AddPwd: for a store that is not full, which its caller checks, and names that end with a zero within their 32 bytes.
- Operations.OptAddPwd: for names that end with a zero within their 32 bytes, as what is typed does.
- Operations.OptChangeName: the same.
- PasswordList.DeletePwd: a cut in the middle of a deletion, an addition or a sort is not covered; the code does not protect them, and what is left then, such as which ids a half-linked list still reaches, is not stated.
- Runs.Perform: the user interface that leads to an operation is left out; the sorting mode and the texts come with the operation. Restarts and their recoveries are no operations of a run; they are in the theorems on power cuts.
- Framing.FramingIsPacketIndependent: no packet goes on behind a command that has data, and the line does not time out; the exact condition in place of the first is Packets.DeliveredExactly.
- Streaming.Writer.SetFram: the part has to lie in the FRAM and have at most 255 bytes, as a packet has; the code checks neither.
- Streaming.SendSlice: slices of more than 16 MB, which the code halves first.
- Menu.DrawNodes: aliases of nodes, drawing and the cursor of options_display are left out.
- Memory.LayoutFits: the FRAM of 128 KB with 16-bit ids and without a screen buffer; addresses are unbounded integers, so the wrap-around of 16-bit products on the device is not modelled.
- Device.Wallet.EepromUpdateByte: always counted as a write, also when the byte is there already.
- ListSort.Sort: the two sorting functions are one method with the order as a parameter.
- The fourth value of the sorting mode, which is never set.
- The other commands of Code/src/Communication/Commands.c and com_abort: they are independent of the parser.
- The older host-side readers and writers of commands (desktop application 1, readFrom), and diff() of transfer_fram.
- Hardware drivers, drawing, typing, progress bar, sleep, confirmation screens, the boot loader, and the file conversion tools.
