# Ciphers and a chat protocol, modelled and proved

This project models four parts of the repository and proves what they are for.

**Classical ciphers.** The Hill cipher (`Determinants.dfy`, `DeterminantProduct.dfy`, `Hill.dfy`, `HillKeys.dfy`)
is proved over the integers first — row swaps negate the determinant, the expansion along any row and down any
column is the determinant, the expansion with the cofactors of another row is zero, the adjugate times the matrix
is the determinant times the identity, the determinant of a product is the product of the determinants — and
reduced modulo 26 last, as the code does, with the truncating remainder of C++. `HillText.dfy` states the cipher on
the key string and the text alone. Playfair (`Playfair.dfy`) is proved through its key square, its digraphs and its
three-way rule on positions, which `PlayfairRule.dfy` states on the letters. Affine (`Affine.dfy`) has an exact
condition on the shift.

**Modern ciphers.** AES (`GaloisField.dfy`, `AesTables.dfy`, `AesRounds.dfy`, `Aes.dfy`, `AesCipher.dfy`) goes
from the algebra of GF(2^8) through the tables, as affine images of inverses, and the round steps to the class
with its schedule array. `AesPanel.dfy` is the padding, block loop and hexadecimal text around it. DES
(`DesTables.dfy`, `Des.dfy`, `DesSchedule.dfy`, `DesCipher.dfy`) is a Feistel network whose round trip holds for
every round function and every list of subkeys. `AesStandard.dfy` and `DesFeistel.dfy` write FIPS 197 and FIPS 46-3 as
recursions on single bytes and single bits, apart from the code, and prove that the code computes them. RSA
(`Primes.dfy`, `Rsa.dfy`) works on 64-bit words that wrap, and rests on Euclid's lemma, the binomial theorem, Fermat's
little theorem and the combination of two primes.

**The chat.** `Router.dfy`, `ChatServer.dfy` and `ChatApp.dfy` are the server objects, `ChatClient.dfy` the
client objects. Each method is tied to a function on values, and `ChatSystem.dfy` builds a transition system
out of those same functions: any number of connections, a first-in-first-out channel each way, every
interleaving of connecting, speaking, serving, delivering, closing, losing a connection and quitting, with
foreign programs that send whatever they like. `ChatMatching.dfy` and `ChatRoster.dfy` hold the invariants and
`ChatTheorems.dfy` what follows for every run; `ChatDelivery.dfy` and `ChatDisplay.dfy` compare what each session
says with what each other session is sent and shows, and `ChatProgress.dfy` shows that what is pending can be finished.
`ChatAddress.dfy`, `ChatNames.dfy`, `ChatSignatures.dfy` and `ChatView.dfy` tie what clients show to the steps of the
run: to whom a user addressed a text, under which name each user was connected, and what is unread.

**Framing.** `Framing.dfy` is the encoder and the header/body reader as a state machine over bytes.

Shared pieces: `FiniteSums.dfy`, `NumberTheory.dfy`, `CoreUtils.dfy`, `Words.dfy`, `AsciiText.dfy`, `Results.dfy`.

Where the code does not meet what is expected of it, the model keeps the code and states exactly when it does:

- a Hill key of size 1 is accepted (`SizeOneAccepted`), and every text decrypts to a row of `A`s
  (`InvertsIffSizeAtLeastTwo`);
- `unpad` refuses padding above 16, which `pad` writes for larger blocks (`UnpadUndoesPadIff`);
- `mulMod` is right for all operands exactly when the modulus is at most 2^63 (`ProductExactIff`), and `modPow`
  exactly when it is from 2 to 2^63 (`PowerExactIff`): modulo 1 the zeroth power comes out as 1, and above 2^63 the
  square of 2^63 comes out as 0;
- Affine decryption undoes encryption exactly for shifts from 0 to 26 and for some negative multiples of 26
  (`RoundTripIff`), and of the multipliers that pass the constructor the negative ones never decrypt
  (`AcceptedDecryptsIff`);
- Playfair gives back a text's letters exactly when no two equal ones meet at the start of a pair and they do not
  end a pair in X (`LettersReturnIff`);
- the subkeys of DES take their bits eight positions away from where FIPS 46-3 takes them: the two schedules agree
  exactly for the keys that are zero but for their parity bits (`ConformsOnlyForParityKeys`).

## Model

| member | source | states |
|---|---|---|
| HillCipher.Mod26 | src/crypto/classic/Hill.cpp:77-79 | Two truncating remainders with a correction between them give the Euclidean residue, for negative numbers too |
| Determinants.SwapAdjacentRows | src/crypto/classic/Hill.cpp:81-100 | Swapping two adjacent rows negates the determinant, at every size |
| Determinants.RowExpansionIsDet | src/crypto/classic/Hill.cpp:81-100 | Expansion along any row, not only the first as coded, gives the determinant |
| Determinants.EqualRows | src/crypto/classic/Hill.cpp:81-100 | A matrix with two equal rows has determinant zero |
| Determinants.AlienRowExpansion | src/crypto/classic/Hill.cpp:102-124 | The entries of one row against the cofactors of another sum to zero |
| Determinants.TransposeKeepsDet | src/crypto/classic/Hill.cpp:81-100 | Transposition keeps the determinant, by comparing the first row with the first column |
| Determinants.ColumnExpansionIsDet | src/crypto/classic/Hill.cpp:81-124 | Expansion down any column gives the determinant; with the cofactors of another column, zero |
| Determinants.AdjugateFormula | src/crypto/classic/Hill.cpp:102-124 | The adjugate times the matrix, in either order, is the determinant times the identity, over the integers |
| DeterminantProduct.BlockDeterminant | src/crypto/classic/Hill.cpp:81-100 | The determinants of the blocks of a block triangular matrix multiply |
| DeterminantProduct.AddingRowsKeepsDet | src/crypto/classic/Hill.cpp:81-100 | Adding multiples of other rows to a row keeps the determinant |
| DeterminantProduct.DeterminantOfProduct | src/crypto/classic/Hill.cpp:81-100 | The determinant of a product is the product of the determinants, at every size |
| HillCipher.SubMatrix | src/crypto/classic/Hill.cpp:86-98 | The loops that skip a row and a column build the minor |
| HillCipher.Determinant | src/crypto/classic/Hill.cpp:81-100 | The recursive method that reduces after every term and at every level is congruent to the integer determinant modulo 26; an empty matrix gets 0 |
| HillCipher.AdjugateMod26 | src/crypto/classic/Hill.cpp:102-124 | The loops fill in a matrix congruent to the integer adjugate for every size from 2; at size 1 it is zero |
| HillCipher.ScaledAdjugateInverts | src/crypto/classic/Hill.cpp:22-30 | The adjugate times an inverse of the determinant is a two-sided inverse of the key matrix modulo 26 |
| HillCipher.Create | src/crypto/classic/Hill.cpp:7-31 | The constructor succeeds exactly for keys that are long enough and whose determinant is coprime to 26 (at size 1 the one entry must also not be negative); from size 2 on it then holds a two-sided inverse, at size 1 the zero matrix |
| HillKeys.UsableIffInvertible | src/crypto/classic/Hill.cpp:7-31 | A key matrix of size 2 or more is accepted if and only if it has a two-sided inverse modulo 26: none that has one is refused |
| HillCipher.Encrypt | src/crypto/classic/Hill.cpp:33-53 | The block loop computes the matrix product of every block, filled up with A |
| HillCipher.Decrypt | src/crypto/classic/Hill.cpp:55-75 | The same for the inverse matrix |
| HillCipher.TransformInverse | src/crypto/classic/Hill.cpp:33-75 | Transforming by a matrix and then by a left inverse modulo 26 gives back the normalised text |
| HillCipher.RoundTrips | src/crypto/classic/Hill.cpp:33-75 | For every key of size 2 or more and every upper-case text, each of decrypt after encrypt and encrypt after decrypt is the text filled up with A to whole blocks |
| HillCipher.SizeOneAccepted | src/crypto/classic/Hill.cpp:7-31 | The constructor's condition holds for the key B of size 1 |
| HillCipher.SizeOneDecryptsToA | src/crypto/classic/Hill.cpp:55-75 | At size 1 every text decrypts to a row of A |
| HillCipher.InvertsIffSizeAtLeastTwo | src/crypto/classic/Hill.cpp:7-75 | Decryption inverts encryption on every upper-case text if and only if the size is at least 2 |
| HillText.EncryptedLetter | src/crypto/classic/Hill.cpp:7-53 | On strings: letter k*n + r of the ciphertext is a capital congruent modulo 26 to the sum over j < n of key letter r*n + j times letter k*n + j of the text filled up with A, for every key that is long enough and every text |
| HillText.UnitBlockSpellsKey | src/crypto/classic/Hill.cpp:7-53 | Encrypting the block with B at place c and A elsewhere spells the key letters c, n + c, 2n + c and so on |
| CoreUtils.EuclidGcd | src/crypto/core/utils.cpp:7-14 | The loop computes the truncating recursion for operands of any sign |
| CoreUtils.TruncatedGcdIsGcd | src/crypto/core/utils.cpp:7-14 | Up to sign that is the greatest common divisor, and exactly so for operands that are not negative |
| NumberTheory.GcdIsGreatest | src/crypto/core/utils.cpp:7-14 | The gcd is a common divisor that every common divisor divides |
| CoreUtils.ModInverse | src/crypto/core/utils.cpp:16-22 | The search finds the least positive inverse, and answers -1 exactly when the number is negative, not coprime to the modulus, or the modulus is below 2 |
| CoreUtils.ToHex | src/crypto/core/utils.cpp:24-31 | Two lower-case digits per byte |
| CoreUtils.FromHex | src/crypto/core/utils.cpp:33-42 | Pairs of characters as strtol reads them, an odd last character dropped |
| CoreUtils.HexRoundTrip | src/crypto/core/utils.cpp:24-42 | Reading the text of any byte string gives the byte string back |
| CoreUtils.HexTextRoundTrip | src/crypto/core/utils.cpp:24-42 | Writing the bytes of a hexadecimal text gives the text back in lower case |
| CoreUtils.HexPlaces | src/crypto/core/utils.cpp:24-31 | Characters 2i and 2i + 1 are the digits of the high and the low four bits of byte i |
| CoreUtils.Pad | src/crypto/core/utils.cpp:49-54 | Appends as many bytes as are missing to a whole block, each holding that number, a whole block when none is missing |
| CoreUtils.PaddedMeaning | src/crypto/core/utils.cpp:49-54 | For block sizes up to 255 the padded data begins with the data, is the next longer whole number of blocks, and each byte added is the number of bytes added |
| CoreUtils.Unpad | src/crypto/core/utils.cpp:56-68 | Strips a valid padding, leaves everything else as it is, and says which |
| CoreUtils.UnpadPadded | src/crypto/core/utils.cpp:49-68 | Unpadding undoes padding whenever the padding byte is at most 16, and reads no byte before the data |
| CoreUtils.UnpaddedIff | src/crypto/core/utils.cpp:49-68 | Of data in whole blocks of 16 padding is removed if and only if the data is some padded text, and then that text is left |
| CoreUtils.UnpadUndoesPadIff | src/crypto/core/utils.cpp:49-68 | Unpadding undoes padding on all data if and only if the block size is at most 16 |
| GaloisField.Multiply | src/crypto/modern/symmetric/block/AES.cpp:55-62 | The loop of shifts and conditional additions computes the product |
| GaloisField.TimesIsPolynomialProduct | src/crypto/modern/symmetric/block/AES.cpp:53-62 | The product is the carry-less product reduced modulo x^8+x^4+x^3+x+1 |
| GaloisField.Distributive | src/crypto/modern/symmetric/block/AES.cpp:55-62 | Multiplication distributes over exclusive or on both sides |
| GaloisField.Commutative | src/crypto/modern/symmetric/block/AES.cpp:55-62 | Multiplication is commutative |
| GaloisField.Associative | src/crypto/modern/symmetric/block/AES.cpp:55-62 | Multiplication is associative |
| AesTables.SBoxOfInverse | src/crypto/modern/symmetric/block/AES.cpp:11-48 | The first table inverts the second at every byte |
| AesTables.SBoxIsAffineOfInverse | src/crypto/modern/symmetric/block/AES.cpp:11-48 | Every byte but 0 has a multiplicative inverse, and the first table is the affine image of it, as section 5.1.1 of FIPS 197 defines it |
| AesTables.AffineMeaning | src/crypto/modern/symmetric/block/AES.cpp:11-48 | The affine map, bit by bit as in the standard |
| AesTables.InverseIsUnique | src/crypto/modern/symmetric/block/AES.cpp:55-62 | No byte is the inverse of two |
| AesTables.InverseOfSBox | src/crypto/modern/symmetric/block/AES.cpp:11-48 | The second table inverts the first at every byte, since the first sends no two bytes to one |
| AesRounds.ShiftRowsRotates | src/crypto/modern/symmetric/block/AES.cpp:247-271 | Row r moves by r places, and back |
| AesRounds.XtimeMixIsApply | src/crypto/modern/symmetric/block/AES.cpp:283-296 | The form of the column mix written with xtime is the product with the circulant matrix 02 03 01 01 |
| AesRounds.MixColumnsInverse | src/crypto/modern/symmetric/block/AES.cpp:283-340 | The two column mixes undo each other on every state |
| AesRounds.SubBytesInverse | src/crypto/modern/symmetric/block/AES.cpp:241-304 | The two substitutions undo each other on every state |
| AesRounds.ShiftRowsInverse | src/crypto/modern/symmetric/block/AES.cpp:247-329 | The two row shifts undo each other on every state |
| AesRounds.GridRoundTrips | src/crypto/modern/symmetric/block/AES.cpp:117-182 | For any number of round keys, the two sequences of rounds undo each other in both orders |
| AesCipher.ShiftRowsInPlace | src/crypto/modern/symmetric/block/AES.cpp:247-271 | The in-place moves through two temporaries rotate every row and lose nothing |
| AesCipher.InvShiftRowsInPlace | src/crypto/modern/symmetric/block/AES.cpp:306-329 | The same for the inverse rotation |
| AesCipher.MixColumnsInPlace | src/crypto/modern/symmetric/block/AES.cpp:283-296 | The in-place loop over columns computes the matrix product |
| AesCipher.InvMixColumnsInPlace | src/crypto/modern/symmetric/block/AES.cpp:331-340 | The same for the inverse matrix |
| AesCipher.AddRoundKeyInPlace | src/crypto/modern/symmetric/block/AES.cpp:273-281 | The loop adds exactly the 16 schedule bytes of its round |
| Aes.ScheduleIndexInRange | src/crypto/modern/symmetric/block/AES.cpp:192-239 | For every key size the round constants used are at most the tenth and every schedule index is below 240 |
| Aes.RoundConstants | src/crypto/modern/symmetric/block/AES.cpp:50 | The constants are the powers of x in the field |
| Aes.GetWordIsPacked | src/crypto/modern/symmetric/block/AES.cpp:71-92 | A word read from the schedule is its four bytes in order |
| Aes.WindowDeterminesKey | src/crypto/modern/symmetric/block/AES.cpp:192-239 | Any Nk consecutive schedule words determine all earlier ones and the key |
| AesStandard.ScheduleIsStandard | src/crypto/modern/symmetric/block/AES.cpp:192-239 | Byte k of word i of the schedule is that of the recurrence of section 5.2 of FIPS 197, written on single bytes: byte k of word i - Nk plus the substituted and rotated byte with its round constant, or the substituted byte in the middle of a 256-bit key's round, or the byte of the word before |
| AesCipher.AES.Create | src/crypto/modern/symmetric/block/AES.cpp:100-103 | The constructor accepts exactly the key sizes 16, 24 and 32 |
| AesCipher.AES.SetKey | src/crypto/modern/symmetric/block/AES.cpp:105-115 | A key of another length is refused and changes nothing; otherwise the array holds the whole schedule |
| AesCipher.AES.KeyExpansion | src/crypto/modern/symmetric/block/AES.cpp:192-239 | The loop fills the array with the words of the recurrence of FIPS 197 section 5.2 and zeros behind them |
| AesStandard.ArrayRecurs | src/crypto/modern/symmetric/block/AES.cpp:192-239 | The array that SetKey fills begins with the key and obeys that recurrence byte by byte, for all three key sizes |
| AesCipher.KeysFromWords | src/crypto/modern/symmetric/block/AES.cpp:192-281 | The round keys that the rounds read are exactly the words that the expansion wrote |
| AesCipher.AES.EncryptBlock | src/crypto/modern/symmetric/block/AES.cpp:117-149 | Refuses other than 16 bytes; otherwise the in-place rounds compute the cipher under the schedule |
| AesStandard.CipherIsStandard | src/crypto/modern/symmetric/block/AES.cpp:117-149 | Every byte of a block enciphered under the schedule of a key is the one that section 5.1 of FIPS 197 gives, written as a recursion on single bytes of the state and of the key |
| AesCipher.AES.DecryptBlock | src/crypto/modern/symmetric/block/AES.cpp:152-182 | The same for the inverse cipher, over the schedule backwards |
| AesCipher.BlockCipherInverse | src/crypto/modern/symmetric/block/AES.cpp:117-182 | Each direction undoes the other for every schedule and every block |
| AesPanel.BlocksRoundTrip | app/crypto/Window.cpp:261-288 | The block loops undo each other on any number of blocks |
| AesPanel.BlocksAreIndependent | app/crypto/Window.cpp:261-273 | Blocks are encrypted one by one: the encryption of two runs of blocks is the encryption of each |
| AesPanel.OneBlock | app/crypto/Window.cpp:261-273 | A single block goes through the block cipher |
| AesPanel.TextRoundTrip | app/crypto/Window.cpp:261-288 | For every key and every byte string, unhex, decrypt and unpad give back what was padded, encrypted and written in hexadecimal |
| AesPanel.Configure | app/crypto/Window.cpp:254-259 | The key text is accepted exactly when its bytes have the chosen size, and then the schedule is that of the key; otherwise which of the two errors it is |
| AesPanel.EncryptText | app/crypto/Window.cpp:254-273 | The whole encrypting branch; a wrong key size is reported before a key text of the wrong length |
| AesPanel.DecryptText | app/crypto/Window.cpp:254-288 | The whole decrypting branch on whole blocks, with the same two errors |
| Primes.Fermat | src/crypto/modern/asymmetric/RSA.cpp:31-42 | Fermat's little theorem, through the binomial theorem |
| Primes.RsaExponents | src/crypto/modern/asymmetric/RSA.cpp:64-88 | Exponents inverse modulo (p-1)(q-1) cancel modulo pq for every residue, also those divisible by p or q |
| Rsa.CheckPrime | src/crypto/modern/asymmetric/RSA.cpp:13-18 | Trial division answers right for every 64-bit word, though the square of the counter wraps for the largest |
| Rsa.MulMod | src/crypto/modern/asymmetric/RSA.cpp:20-28 | The double-and-add loop with wrapping sums, for every modulus but zero |
| Rsa.ProductExact | src/crypto/modern/asymmetric/RSA.cpp:20-28 | For all operands and moduli from 1 to 2^63 it is the product modulo m |
| Rsa.ProductExactIff | src/crypto/modern/asymmetric/RSA.cpp:20-28 | It is so for all operands if and only if the modulus is at most 2^63 |
| Rsa.ModPow | src/crypto/modern/asymmetric/RSA.cpp:31-42 | The square-and-multiply loop over that product |
| Rsa.PowerExactBelow | src/crypto/modern/asymmetric/RSA.cpp:31-42 | For moduli up to 2^63 one power is right if and only if the modulus is at least 2 or the exponent is positive |
| Rsa.PowerExactIff | src/crypto/modern/asymmetric/RSA.cpp:31-42 | For every modulus but zero: it is the power modulo m for all bases and exponents if and only if the modulus is from 2 to 2^63 |
| Words.EncodeUint64 | src/crypto/modern/asymmetric/RSA.cpp:46-51 | Eight bytes, most significant first |
| Words.ByteOfWord | src/crypto/modern/asymmetric/RSA.cpp:46-51 | Byte i of n counts 256^(n-1-i): the most significant comes first |
| Rsa.DecodeUint64 | src/crypto/modern/asymmetric/RSA.cpp:54-62 | The value of the eight bytes at an offset, or an error when there are too few |
| Rsa.KeyRoundTrip | src/crypto/modern/asymmetric/RSA.cpp:46-88 | Decoding a key at the offsets 0 and 8 gives its modulus and its exponent |
| Rsa.GenerateKeyPair | src/crypto/modern/asymmetric/RSA.cpp:64-88 | The keys of 61, 53 and 17, the private exponent being an inverse modulo 3120 |
| Rsa.Encrypt | src/crypto/modern/asymmetric/RSA.cpp:90-103 | One byte and a readable key are required, and a message below the modulus |
| Rsa.Decrypt | src/crypto/modern/asymmetric/RSA.cpp:105-113 | The low byte of the power, or an error for an unreadable key or text |
| Rsa.CipherValues | src/crypto/modern/asymmetric/RSA.cpp:90-113 | For moduli from 2 to 2^63: a byte encrypts to m^e mod n in eight big-endian bytes, or is refused when it is not below n, and c decrypts to the low byte of c^d mod n |
| Rsa.ModPowInverts | src/crypto/modern/asymmetric/RSA.cpp:31-42 | For all distinct primes with product at most 2^63 and inverse exponents, the two powers computed on wrapping words cancel for every message below the modulus |
| Rsa.RsaRoundTrip | src/crypto/modern/asymmetric/RSA.cpp:90-113 | For all such keys decryption gives back every byte below the modulus |
| Rsa.GeneratedKeyRoundTrip | src/crypto/modern/asymmetric/RSA.cpp:64-113 | For the generated key it gives back every byte |
| Des.Permute | src/crypto/modern/symmetric/block/DES.cpp:32-39 | The shifting loop never loses a bit of the word and gathers the bits of the table |
| Des.PermutedBit | src/crypto/modern/symmetric/block/DES.cpp:32-39 | Bit i of the result is the bit of the input at position table[i] |
| Des.InitialAndFinalPermutation | src/crypto/modern/symmetric/block/DES.cpp:7-8 | The two permutations undo each other, in both orders, on every 64-bit word |
| Des.XorBit | src/crypto/modern/symmetric/block/DES.cpp:125-129 | Bit by bit, the exclusive or on numbers is addition modulo 2 |
| Des.RoundsUndone | src/crypto/modern/symmetric/block/DES.cpp:125-129 | The rounds backwards undo the rounds between two swaps, whatever the round function returns |
| Des.DecipheringReversesTheKeys | src/crypto/modern/symmetric/block/DES.cpp:107-179 | Decryption is encryption with the subkeys in reverse order |
| Des.DecipherUndoesEncipher | src/crypto/modern/symmetric/block/DES.cpp:107-179 | For every round function, list of subkeys and block, decryption undoes encryption |
| Des.EncipherUndoesDecipher | src/crypto/modern/symmetric/block/DES.cpp:107-179 | And encryption undoes decryption |
| DesFeistel.CipherOfComplements | src/crypto/modern/symmetric/block/DES.cpp:107-142 | Complementing the block and every 48-bit subkey complements the ciphertext, for any number of rounds |
| DesFeistel.CipherIsStandard | src/crypto/modern/symmetric/block/DES.cpp:107-142 | Every bit of the ciphertext is that of FIPS 46-3, for every block and every list of subkeys: the initial permutation by its rule, the rounds as a recursion on single bits, the halves exchanged, the final permutation by its rule |
| DesCipher.RunFeistel | src/crypto/modern/symmetric/block/DES.cpp:76-105 | The expansion, the S-box loop and the permutation compute the round function within 32 bits |
| DesFeistel.FeistelIsStandard | src/crypto/modern/symmetric/block/DES.cpp:76-105 | Every bit of the round function is that of FIPS 46-3, for every half and subkey: box b is given four bits of the half and their neighbours, each plus a bit of the subkey, the outer two bits choose its row and the inner four its column, and bit i is bit P[i] of the eight outputs |
| DesFeistel.ExpansionRule | src/crypto/modern/symmetric/block/DES.cpp:9 | Entry 6b + j of E is bit 4b + j of the half, counted around it from 0 |
| DesFeistel.RowsArePermutations | src/crypto/modern/symmetric/block/DES.cpp:14-23 | Every row of every S-box is a permutation of 0 to 15 |
| DesFeistel.ColumnsDiffer | src/crypto/modern/symmetric/block/DES.cpp:14-23 | Rows whose numbers differ in one bit hold different values in every column |
| DesFeistel.PTakesAll | src/crypto/modern/symmetric/block/DES.cpp:10 | P takes every one of the 32 bits |
| DesFeistel.SubkeyBitMatters | src/crypto/modern/symmetric/block/DES.cpp:76-105 | Flipping any one bit of a 48-bit subkey changes the result of the round function, on every half |
| DesFeistel.FeistelOfComplements | src/crypto/modern/symmetric/block/DES.cpp:76-105 | The round function is the same on a half and a subkey that are both complemented |
| DesCipher.DES.KeyExpansion | src/crypto/modern/symmetric/block/DES.cpp:55-74 | The loop stores the sixteen subkeys of the key |
| DesSchedule.SubkeyBits | src/crypto/modern/symmetric/block/DES.cpp:55-74 | Bit by bit what a subkey takes from the rotated halves: positions up to 8 of the table give zero for every key, position p above 8 gives bit p - 8 |
| DesSchedule.RotatedBit | src/crypto/modern/symmetric/block/DES.cpp:55-74 | The rotation moves every bit of a half around its 28 places |
| DesSchedule.KeyHalvesBit | src/crypto/modern/symmetric/block/DES.cpp:55-74 | A bit of the halves in any round is a bit of the halves before the first, turned by the sum of the shifts |
| DesSchedule.TurnsRule | src/crypto/modern/symmetric/block/DES.cpp:13 | The halves turn by one place in the rounds 1, 2, 9 and 16 and by two in every other |
| DesSchedule.PC1Names | src/crypto/modern/symmetric/block/DES.cpp:11 | Where PC1 names each key bit that is no parity bit, by the place of the bit in its byte |
| DesSchedule.PC2Sides | src/crypto/modern/symmetric/block/DES.cpp:12 | The first 24 entries of PC2 are of the left half and the others of the right, and the eight positions that FIPS 46-3 omits are never taken |
| DesSchedule.FipsSubkeyBits | src/crypto/modern/symmetric/block/DES.cpp:55-74 | What the schedule of FIPS 46-3, with PC2 counted from the top of the 56 bits, takes from the same halves: position p gives bit p |
| DesSchedule.SameScheduleIff | src/crypto/modern/symmetric/block/DES.cpp:55-74 | The sixteen subkeys are those of FIPS 46-3 if and only if PC1 takes only zero bits from the key |
| DesSchedule.NoKeyBits | src/crypto/modern/symmetric/block/DES.cpp:55-74 | PC1 takes every bit of the key but the parity bits |
| DesSchedule.ConformsOnlyForParityKeys | src/crypto/modern/symmetric/block/DES.cpp:55-74 | So they are those of FIPS 46-3 if and only if every bit of the key is zero but its parity bits |
| DesSchedule.SchedulesDiffer | src/crypto/modern/symmetric/block/DES.cpp:55-74 | A key for which they differ |
| DesCipher.DES.SetKey | src/crypto/modern/symmetric/block/DES.cpp:41-53 | Other than 8 bytes is refused and changes nothing |
| DesCipher.DES.EncryptBlock | src/crypto/modern/symmetric/block/DES.cpp:107-142 | Other than 8 bytes is refused; otherwise the loops compute the cipher under the stored subkeys |
| DesCipher.DES.DecryptBlock | src/crypto/modern/symmetric/block/DES.cpp:144-179 | The same with the subkeys from the last to the first |
| DesCipher.BlockCipherInverse | src/crypto/modern/symmetric/block/DES.cpp:107-179 | On blocks of bytes each direction undoes the other, for every list of subkeys |
| PlayfairCipher.GenerateKeyMatrix | src/crypto/classic/Playfair.cpp:11-40 | The matrix shows the letters of the key in order of first occurrence, then the rest of the alphabet |
| PlayfairCipher.SquareIsPermutation | src/crypto/classic/Playfair.cpp:11-40 | For every key the square holds each of the 25 letters exactly once |
| PlayfairRule.SquareOrder | src/crypto/classic/Playfair.cpp:11-40 | Two letters stand in the square in the order in which they first occur in the folded key, followed by the alphabet |
| PlayfairRule.FoldedCharacter | src/crypto/classic/Playfair.cpp:17-25 | What is kept of a character: a letter in upper case, I for J, and nothing of any other |
| PlayfairCipher.FindPosition | src/crypto/classic/Playfair.cpp:42-50 | The position of a letter in the square, and (-1, -1) exactly for what is not in it |
| PlayfairCipher.TurnedBack | src/crypto/classic/Playfair.cpp:100-109 | The three-way rule with 1 and with 4 undo each other, a pair staying in its case |
| PlayfairCipher.PreprocessPlaintext | src/crypto/classic/Playfair.cpp:52-79 | The uneven stride makes pairs of the folded letters |
| PlayfairCipher.EqualPairsAreXX | src/crypto/classic/Playfair.cpp:52-79 | The only pair of equal letters in a prepared text is XX |
| PlayfairCipher.PairedOnlyInsertsX | src/crypto/classic/Playfair.cpp:52-79 | Leaving out some Xs of a prepared text gives the letters of the original |
| PlayfairCipher.Playfair.Encrypt | src/crypto/classic/Playfair.cpp:87-111 | The loop turns every pair of the prepared text on the square of the key |
| PlayfairRule.EncryptedPair | src/crypto/classic/Playfair.cpp:87-111 | On rows and columns of the square of the key, for every pair of the prepared text: letters in different rows and columns give first the letter in the first one's row and the second's column, then the letter in the second's row and the first's column; letters in one row their right neighbours; letters in one column the ones below |
| PlayfairRule.PlaceIsUnique | src/crypto/classic/Playfair.cpp:42-50 | Row and column tell the letters of the square apart |
| PlayfairCipher.Playfair.Decrypt | src/crypto/classic/Playfair.cpp:113-157 | Any text: other characters dropped, J folded, made even, turned back, one last X dropped |
| PlayfairCipher.DigraphsUndone | src/crypto/classic/Playfair.cpp:94-110 | Turning every digraph and turning it back gives the text |
| PlayfairCipher.RoundTrip | src/crypto/classic/Playfair.cpp:87-157 | For every key and every text, decrypting the encrypted text is the prepared text less one last X if it has one |
| PlayfairCipher.LettersReturnIff | src/crypto/classic/Playfair.cpp:52-157 | That is exactly the letters of the text if and only if no two equal ones meet where a pair begins and, where they fill the last pair, they do not end in X |
| PlayfairCipher.DoubletStays | src/crypto/classic/Playfair.cpp:52-157 | A text whose letters do not come back: AA comes back as AXA |
| PlayfairCipher.CiphertextReturnsIff | src/crypto/classic/Playfair.cpp:87-157 | Encrypting a decrypted text gives back exactly the letters of the ciphertext if and only if there is an even number of them and the decrypted text has no two equal letters where a pair begins |
| AffineCipher.Affine.Create | src/crypto/classic/Affine.cpp:8-12 | Refused unless the truncating gcd with 26 is 1 |
| AffineCipher.Affine.Decrypt | src/crypto/classic/Affine.cpp:29-46 | Fails exactly for negative multipliers and those not coprime to 26; otherwise decrypts with the inverse |
| AffineCipher.AcceptedDecryptsIff | src/crypto/classic/Affine.cpp:8-46 | Of the multipliers that pass the constructor, decryption succeeds exactly for those that are not negative |
| AffineCipher.NegativeMultiplierAccepted | src/crypto/classic/Affine.cpp:8-46 | The constructor takes the multiplier -5, which cannot decrypt |
| AffineCipher.CharReturns | src/crypto/classic/Affine.cpp:14-46 | Exactly when one character comes back: its code must not be negative and decrypting it must not fall below zero |
| AffineCipher.LetterMoves | src/crypto/classic/Affine.cpp:14-28 | A letter x moves to a*x + b modulo 26, and to a letter of its own case unless that number is negative and no multiple of 26; other characters stay |
| AffineCipher.GoodShiftsAreExact | src/crypto/classic/Affine.cpp:14-46 | That holds for all 26 positions exactly for the good shifts |
| AffineCipher.RoundTripIff | src/crypto/classic/Affine.cpp:14-46 | For multipliers from 0 coprime to 26, decryption undoes encryption on every text if and only if the shift is 0 to 26, or a negative multiple of 26 not below minus the multiplier |
| Framing.SwapThenLittleEndian | src/net/protocol/Message.cpp:28-33 | Swapping the length and writing it as a little-endian host keeps it is writing it most significant byte first |
| Framing.Encode | src/net/protocol/Message.cpp:24-51 | One byte of type, four of length, the body |
| Framing.HeaderSays | src/net/protocol/Message.cpp:24-51 | The header of an encoded message gives its type and, most significant byte first, the length of its body |
| Framing.FrameReader.OnHeaderRead | src/net/server/sessions/PlainSession.cpp:109-129 | A body above the limit closes the session, and so does an empty one; otherwise the body is read |
| Framing.FrameReader.OnBodyRead | src/net/server/sessions/PlainSession.cpp:73-93 | A body that parses is handed over; a parser or a callback that throws closes the session |
| Framing.FrameReader.Receive | src/net/server/sessions/PlainSession.cpp:62-129 | Reads that take bytes as they come refine the reader that takes them one by one |
| Framing.ReadInPieces | src/net/server/sessions/PlainSession.cpp:62-129 | Where the bytes are cut on their way makes no difference to the state or to what is handed over |
| Framing.ReadFrame | src/net/client/Client.cpp:118-168 | From a frame boundary one frame is handed over exactly when its body is within range, and the reader is then on a boundary again |
| Framing.ReadStream | src/net/server/sessions/PlainSession.cpp:62-129 | Over any list of encoded messages exactly those up to the first bad one are handed over, in order, and the reader ends on a frame boundary if and only if there is none |
| Framing.ReadsWhatWasSent | src/net/client/Client.cpp:118-168 | A reader over messages within its range delivers exactly that list, and at every cut a first part of it |
| Framing.ServerReadsWhatWasSent | src/net/server/sessions/PlainSession.cpp:62-129 | For bodies of 1 to 2^20 bytes exactly the list is delivered, and at every cut a first part of it |
| ChatRouter.EveryBranchKeepsTheId | src/net/server/Router.cpp:26-63 | Every response carries the id of its request; the router throws exactly when the id, or the method of a request, has the wrong type |
| ChatRouter.HandlersRunOnlyForTheirMethod | src/net/server/Router.cpp:26-51 | A handler runs exactly for a request with a non-empty method it is registered under, on that request's parameters |
| ChatRouter.RefusalCodes | src/net/server/Router.cpp:26-46 | -32600 exactly for what is no request or names no method, -32601 exactly for a method that is not registered |
| ChatRouter.HandlerCodes | src/net/server/Router.cpp:51-62 | -32001 exactly for a JSON exception of a handler and -32000 for any other |
| ChatRouter.Router.Dispatch | src/net/server/Router.cpp:26-46 | The branches with their error codes, in their order |
| ChatServer.SessionManager.Add | src/net/server/SessionManager.cpp:8-19 | A session gets the next uid, which no session has, and the name guest |
| ChatServer.SessionManager.Remove | src/net/server/SessionManager.cpp:22-32 | Exactly that session leaves the table |
| ChatServer.SessionManager.Broadcast | src/net/server/SessionManager.cpp:36-50 | Every live session is sent the message exactly once |
| ChatServer.SessionManager.SendTo | src/net/server/SessionManager.cpp:52-69 | Every listed session that is live is sent the message once for each time it is listed |
| ChatServer.SessionManager.SetName | src/net/server/SessionManager.cpp:71-78 | Renames a live session and otherwise does nothing |
| ChatServer.SessionManager.GetName | src/net/server/SessionManager.cpp:80-88 | The name of a live session, or Unknown |
| ChatServer.SessionManager.GetCount | src/net/server/SessionManager.cpp:102-106 | The number of names in the table |
| ChatServer.SessionManager.ListIds | src/net/server/SessionManager.cpp:108-119 | Each live uid exactly once, in some order |
| ChatServer.PlainSession.Close | src/net/server/sessions/PlainSession.cpp:21-31 | The close callback is due only for the first of any number of calls |
| ChatApp.ServerAppContext.Accept | src/net/server/ServerController.cpp:71-72 | A new connection is entered under a fresh uid and told it |
| ChatApp.ServerAppContext.Close | src/net/server/ServerController.cpp:74-82 | The first close takes the session out of the table and then tells each session that remains, once; later ones do nothing |
| ChatApp.ServerAppContext.OnMessage | src/net/server/ServerController.cpp:84-87 | One message: the new table and exactly what each session is sent, pushes before the response; a router that throws closes the session |
| ChatApp.ServerAppContext.RunRoute | app/net/server/common/ServerAppContext.cpp:37-67 | The five handlers: table, audience, push and result, and the failures on mistyped parameters, which change nothing |
| ChatServer.OddRequests | app/net/server/common/ServerAppContext.cpp:37-66 | A parameter of the wrong type is answered with an error and has no other effect, a ping is answered with a pong, and a login without a name is that of a guest |
| ChatClient.Client.RequestAsync | src/net/client/Client.cpp:83-93 | Nothing unless running; otherwise the next id, its callback and a request with that id |
| ChatClient.Client.HandleMessage | src/net/client/Client.cpp:170-190 | A response takes its callback out of the map, to be run by the application; unknown ids and requests are ignored |
| ChatClient.Client.Close | src/net/client/Client.cpp:209-222 | Only the first call stops the client |
| ChatClient.ClientAppContext.Connect | app/net/client/common/ClientAppContext.cpp:10-23 | The old state is gone, and a new client is on its way |
| ChatClient.ClientAppContext.HandleConnectResult | src/net/client/Client.cpp:54-64 | Once connected the client asks to log in; when that fails it stops |
| ChatClient.ClientAppContext.Disconnect | app/net/client/common/ClientAppContext.cpp:25-35 | The old client is stopped and users, messages, uid and name are cleared |
| ChatClient.ClientAppContext.SendPublic | app/net/client/common/ClientAppContext.cpp:44-51 | The text is shown at once, and handed to requestAsync, which sends it if and only if the client is running |
| ChatClient.ClientAppContext.SendPrivate | app/net/client/common/ClientAppContext.cpp:53-64 | The same to one user |
| ChatClient.ClientAppContext.HandleLoginResponse | app/net/client/common/ClientAppContext.cpp:105-127 | An error disconnects; otherwise uid and name are kept and the client list is requested |
| ChatClient.ClientAppContext.HandlePush | app/net/client/common/ClientAppContext.cpp:129-167 | The four events; what the user said itself is not shown again, and private messages count as unread |
| ChatClient.ClientAppContext.OnMessage | src/net/client/Client.cpp:170-196 | A message, its callback and everything it causes, as one step of the client |
| ChatClient.NamesOfMerge | app/net/client/common/ClientAppContext.cpp:117-121 | Entering a client list into the users enters its names into their roster |
| ChatSystem.ServeSends | src/net/server/ServerController.cpp:84-87 | A server step of the system sends each session exactly what the server model says |
| ChatSystem.CloseSends | src/net/server/ServerController.cpp:74-82 | A session that closes in the system leaves the table, and each session is told, as ServerAppContext.Close has it |
| ChatSystem.EnterSends | src/net/server/ServerController.cpp:71-72 | A session that is entered in the system gets the uid and the name of ServerAppContext.Accept, and nobody is told |
| ChatMatching.ServingFits | app/net/server/common/ServerAppContext.cpp:37-67 | The server answers every request of the application once, with its id and with a reply of the kind its callback is written for |
| ChatMatching.DeliverResponse | src/net/client/Client.cpp:170-196 | A response that arrives runs the oldest pending callback on the reply built for its request, and matching is kept |
| ChatRoster.ListMakesCurrent | app/net/server/common/ServerAppContext.cpp:45-49 | A client list makes the roster of its receiver complete and keeps it right |
| ChatRoster.OneDepartureOneAudience | src/net/server/ServerController.cpp:74-82 | A session that closed once is announced to its audience once and to nobody else |
| ChatRoster.StepKeeps | src/net/server/ServerController.cpp:62-90 | Every step of the system keeps the table, the rosters, the matching of requests and the count of farewells |
| ChatRoster.RunKeeps | src/net/server/ServerController.cpp:62-90 | So does every run |
| ChatTheorems.RosterConverges | app/net/client/common/ClientAppContext.cpp:105-137 | In every reachable state, a client that has handled what is still on its way lists only live users under the names the server holds and, once a client list has been sent to it, every live user that has logged in |
| ChatNames.NamedAfterLogin | app/net/server/common/ServerAppContext.cpp:37-43 | In every reachable state a live session of the application is called guest until its login has been served, and from then on by the name it was connected with; it counts as logged in exactly from then on |
| ChatNames.DrainedRosterNames | app/net/client/common/ClientAppContext.cpp:105-137 | A client that has handled what is still on its way lists every user of the application under the name that user was connected with, or as guest before the login |
| ChatNames.RosterShowsLoginNames | app/net/client/common/ClientAppContext.cpp:105-137 | From every reachable state a run of serving and delivering leads a listening client to a settled list on which every live user of the application that has logged in stands under the name it was connected with |
| ChatSignatures.SpeakersAreNamed | app/net/server/common/ServerAppContext.cpp:51-64 | In every reachable state what a session has been sent of what a user of the application said, and every line another client shows of it, carries the name that user was connected with |
| ChatView.ClientViewIsRight | app/net/client/common/ClientAppContext.cpp:105-162 | In every reachable state a client knows its own name from its login on and signs its own lines with it; each entry of its user list is of the user it stands for, and counts the private messages that have arrived from that user since the user last came or was listed |
| ChatTheorems.CallbacksAnswerRequests | src/net/client/Client.cpp:83-93 | Over every interleaving the callbacks have run in the order of their requests, each at most once, each on the reply the router built for that id, and those pending are exactly issued minus answered |
| ChatTheorems.LoginNeverFails | app/net/client/common/ClientAppContext.cpp:105-111 | No message the server can send disconnects the application |
| ChatTheorems.OthersAreShownAndNoEcho | app/net/client/common/ClientAppContext.cpp:137-162 | A client shows each message of others and never the echo of its own, even if it spoke before it knew its uid |
| ChatTheorems.UidsAreNeverReused | src/net/server/SessionManager.cpp:8-19 | The next uid is new: no connection, live or closed, has had it |
| ChatTheorems.OneFarewellEach | src/net/server/ServerController.cpp:74-82 | Every session closes at most once and is announced exactly once to each session then live, and to no other |
| ChatTheorems.LeavesBeforeFarewell | src/net/server/ServerController.cpp:74-82 | At every step either nobody leaves, or one session is out of the table when exactly those in the table are told |
| ChatDelivery.ServedConveys | app/net/server/common/ServerAppContext.cpp:51-64 | Serving a request sends a live session exactly what the request says to it, and nothing in the name of anyone else |
| ChatDelivery.CloseKeepsPair | src/net/server/ServerController.cpp:74-82 | A departure disturbs no conversation |
| ChatDelivery.StepKeepsPair | src/net/server/ServerController.cpp:62-90 | Every step keeps, for every two sessions, what the one has been sent of the other in agreement with what the other has said |
| ChatDelivery.DeliveredOnceInOrder | src/net/server/SessionManager.cpp:36-69 | In every reachable state a live session has been sent exactly what each other session has said to it since it joined: in order, none lost, none twice, none made up, no private message meant for someone else |
| ChatDisplay.ShownOnceInOrder | app/net/client/common/ClientAppContext.cpp:129-162 | From one end to the other: a client that has handled what is still on its way shows of every other session exactly what that one has said to it since it joined, in order, each once |
| ChatAddress.PrivateIsForItsAddressee | app/net/client/common/ClientAppContext.cpp:53-64 | A private text of a running client becomes exactly one request, which says it to its addressee and nothing to anyone else |
| ChatAddress.PublicIsForEveryone | app/net/client/common/ClientAppContext.cpp:44-51 | A public text of a running client becomes exactly one request, which says it to everyone |
| ChatAddress.RequestsSayWhatIsAddressed | app/net/client/common/ClientAppContext.cpp:44-64 | In every reachable state the requests of a client have said to any session exactly what the steps of the run say that its user addressed to it, in order |
| ChatAddress.AddressedIsShown | app/net/client/common/ClientAppContext.cpp:44-162 | From user to user, in every reachable state: what the user of v has addressed to u is what was handled before u joined, then exactly what u's client shows of v once it has handled what is on its way, then what the server has yet to handle |
| ChatDisplay.StepShows | app/net/client/common/ClientAppContext.cpp:44-64 | Every step keeps what a client shows in agreement with what it has been delivered; its own lines never count as another's |
| ChatDisplay.LineIsRequestedIff | app/net/client/common/ClientAppContext.cpp:44-64 | A line that a user adds is requested, once, if and only if the client is running |
| ChatDisplay.OwnLinesAreRequested | app/net/client/common/ClientAppContext.cpp:44-64 | In every reachable state the own lines of a running client are exactly what its requests have said, in order; of a client that has lost its connection the later ones were never requested |
| ChatProgress.Settle | src/net/client/Client.cpp:170-196 | Two rounds of serving what a client has asked and delivering what it is sent leave nothing on its way and no callback waiting |
| ChatProgress.CanSettle | app/net/client/common/ClientAppContext.cpp:105-137 | From every reachable state a run between the server and a listening client leads to one where nothing is pending between them and the user list holds only live users under their names, every one that has logged in included |
| ChatTheorems.ClosedForGood | src/net/server/SessionManager.cpp:90-119 | A closed session never returns to the table |

## Left out

- TLS, certificates, the OpenSSL wrappers and the secure session: foreign calls; the secure session repeats the reader of the plain one.
- Sockets, threads, executors and mutexes: a step of the chat is atomic and a channel delivers in order. The code does not serialise overlapping writes (src/net/server/sessions/PlainSession.cpp:135-145), so whole-frame writes are an assumption. One port with one io thread is assumed; a session closed from the dashboard is the step Close.
- Nothing of a session is served after it is closed. The code does not look at its closed flag when a body that was read before arrives (src/net/server/sessions/PlainSession.cpp:73-93), so a request could still be handled then, and a login announce a uid that is out of the table.
- In the system connecting is one step: the server enters the session as the client asks to log in. A connection that fails, and what a client says before it is up, are modelled in the client alone.
- JSON text: messages of the chat are records of the members that the code reads, a member being absent, given or of the wrong type; in the framing model writing and parsing are parameters. Timestamps and the text of exceptions are dropped.
- Request ids and uids are unbounded numbers, which stands for runs with fewer than 2^32 connections and requests per client. Unread counters are unbounded too.
- A fallback handler other than the default one, and the synchronous request call.
- Starting and stopping ports, and two ports sharing one session table from two threads.
- The overflow of int in Hill (sizes above 46340 for letter keys), in gcd and modInverse (moduli above 46340) and in Affine (multipliers near the limits): those integers are unbounded. Negative matrix sizes: a size is a natural number.
- Rsa.GenerateKeyPair: the iterator pairs of the original come from different temporaries (src/crypto/modern/asymmetric/RSA.cpp:81-85); the evident intent, appending the eight bytes of each number, is modelled.
- AesPanel.DecryptText: a text that is not a whole number of blocks is excluded, since the original then reads past the end of its buffer.
- ChatClient.Client.HandleMessage: the callback that is due is returned, and run by ClientAppContext.OnMessage, where the original runs it in place.
- CoreUtils.ModInverse: the modulus 0 is excluded, for which the original divides by zero.
- CoreUtils.Unpad: data that is shorter than its last byte says and filled with that byte is excluded, since the scan of the original then leaves the vector; UnpadPadded shows that padded data is never among it.
- Rsa.Decrypt: a key with modulus 0, for which the original divides by zero, is an error of its own in the model.
- Known-answer vectors of any cipher.
- Characters beyond ASCII in the classical ciphers, where the C character functions depend on the locale; non-letters in Hill texts are covered only as far as their residue modulo 26.
- The wiping of memory in destructors, key secrecy and timing.
- Big-endian hosts: encode swaps unconditionally, so a little-endian host is fixed.
- Caesar and Vigenere, SHA and the other panels, all user interface code and argument parsing: easy next to the rest, or not logic.
