# A verified model of the SSH client core of SSHTerm

SSHTerm is an SSH terminal for AmigaOS built on a copy of libssh2 1.10.0. This project models the parts of that
library, and of the terminal's write loop, whose correctness is not visible from any single function, and proves what
they promise. Everything is checked by `dafny verify dfyconfig.toml`.

| modules | what they model |
|---|---|
| `PacketQueue`, `Channels`, `Sessions`, `ChannelRead`, `ChannelWrite`, `Requests`, `ChannelOpen`, `Runs` | the channel layer of `channel.c`: channels that share one packet queue, two windows, re-entrant calls, ids; and the write loop of `src/main.c` |
| `NameLists`, `MethodPref`, `KexAgree`, `Negotiation`, `KexInit`, `KexSession` | negotiation in `kex.c`: preferences filtered in place, the KEXINIT packet, first-preference agreement |
| `Mpint`, `ExchangeHash`, `KeyStretch` | the encodings and the key derivation of `kex.c` |
| `Blowfish`, `BlowfishCipher`, `CipherModes`, `BcryptPbkdf` | `blowfish.c` and `bcrypt_pbkdf.c` |
| `HostText`, `HostEntries`, `HostRoundTrip`, `HostLines`, `HostFiles`, `HostCheck`, `KnownHosts`, `Base64` | `knownhost.c`, with base64 as in `misc.c` |
| `Bytes`, `Errors`, `Modular`, `Arith` | bytes and strings on the wire, error codes, `uint32_t` arithmetic, division |

Objects whose methods update fields are classes (`Channel`, `Session`, the known-hosts collection, the Blowfish context),
algorithms that work in place work on arrays, loops are loops; each such method is proved against a function or a
predicate on values, and the lemmas are about those. `uint32_t`, `size_t` and `int` are 32 bits wide, as on the
Amiga, and wrap around where the code lets them.

**The environment.** The network is a list of events that the session takes in one by one, and every send may be taken,
put off (EAGAIN) or fail, as the environment likes. What a channel has put on the wire, what it was granted and what arrived for it
is recorded in ghost fields, so that statements about whole runs are statements about these records (`Runs`). The records
are tied to what can be seen: to the events of the network, to the messages sent, and to the states a channel is left in.

**Where the code does not do what one would expect.** For each of these there is a lemma, or a method with the calls
themselves, at an input the code can receive, and a lemma with the exact condition:

- a preference string that ends in a comma keeps an empty name at its end (`MethodPref.TrailingCommaStays`,
  `MethodPref.FilteredExactly`);
- the flag that a guessed key exchange packet follows is read two name-lists too early (`KexInit.FollowsFlagIsMissed`,
  `KexInit.FollowsFlagExactly`); the code's comment says otherwise, and the model follows the code;
- the number zero is sent as one zero byte instead of an empty string (`Mpint.MpintIsCanonical`);
- an empty name in a host field is read into its neighbour (`HostText.EmptyNameIsMisread`, `HostText.NamesOfJoin`), a key
  type name that starts a known one becomes that one, and the comment of an RSA1 key becomes part of the key
  (`HostRoundTrip.ShortTypeNameIsMisread`, `HostRoundTrip.Rsa1CommentIsLost`, `HostRoundTrip.RoundTrip`);
- names of one or two letters that share a host field are not read again once they are written on lines of their own
  (`HostLines.ShortNamesAreLost`, `HostLines.ComesBackExactly`, `HostFiles.FileComesBackExactly`);
- a packet that wraps the counter of waiting bytes around is kept although the window has no room for it
  (`Sessions.WrapLetsTooMuchIn`, `Sessions.KeptFitsExactly`);
- waiting for the other side's close ends with any packet (`Requests.CloseTooEarly`, `Requests.CloseChannel`);
- a key added with a length shorter than its text is not found again (`HostCheck.CutKeyIsNotFound`, `HostCheck.AddedIsFound`);
- a forwarded connection whose confirmation is put off once is confirmed later, but its channel is queued nowhere
  (`Sessions.RetriedIsLost`, `Sessions.QueuedIfSentAtOnce`);
- a retried window adjustment grows the window by its own argument, not by the amount it sends
  (`Channels.RetriedAdjust`, `Channels.GrowthIsCredit`), and a retried flush takes its bytes off the counters again
  (`ChannelRead.RetriedFlush`, `ChannelRead.Flush`);
- an adjustment for a read can wrap the receive window around although the initial window and the buffer fit 32 bits
  (`Channels.QueueMakesWindowWrap`, `Channels.WideEnoughExactly`);
- a grant that comes in before the confirmation of its channel is taken is lost (`ChannelOpen.LoseGrant`,
  `Channels.NothingLostExactly`);
- the send window underflows if the other side grants too much while a write waits (`Channels.OvergrantUnderflows`,
  `Channels.UnderflowExactly`);
- ids repeat after 2^32 channels (`Sessions.IdsRepeat`, `Sessions.NextIdIsFresh`).

## Model

| member | source | states |
|---|---|---|
| Bytes.GetStringHeld | libssh2-1.10.0/src/misc.c:777-795 | where the encoding of a string stands in a packet, reading at that place gives the string back and the position behind it |
| Bytes.StrsInjective | libssh2-1.10.0/src/kex.c:529-622 | two lists of length-prefixed strings with the same encoding are the same list, even when the number of strings is not known beforehand |
| NameLists.JoinSplit | libssh2-1.10.0/src/kex.c:3082-3120 | splitting a list at its commas and joining the names again gives the list back |
| NameLists.SplitJoin | libssh2-1.10.0/src/kex.c:3082-3120 | joining comma-free names and splitting the list gives the names back |
| NameLists.GetMethodByName | libssh2-1.10.0/src/kex.c:3342-3356 | the first entry of the table with exactly this name is found, or none if there is none |
| MethodPref.FilterInPlace | libssh2-1.10.0/src/kex.c:3986-4012 | the shifting loop terminates and leaves the filtered preference string in the very buffer it reads, for every preference string and every table of comma-free names |
| MethodPref.FilteredExactly | libssh2-1.10.0/src/kex.c:3986-4012 | what is left is exactly the supported names, joined in their original order, if and only if the string does not end in a comma or no name in it is supported |
| MethodPref.TrailingCommaStays | libssh2-1.10.0/src/kex.c:3986-4012 | for one: a supported name followed by a comma is left as it is, where the joined supported names are the name alone |
| MethodPref.FilteredIsSupported | libssh2-1.10.0/src/kex.c:3986-4012 | every name that is left, but for the empty one behind a comma at the end, is in the table of supported methods |
| MethodPref.FilteredStartsSupported | libssh2-1.10.0/src/kex.c:3986-4029 | unless nothing is left, the first name that is left is in the table |
| KexSession.Session.SetMethodPref | libssh2-1.10.0/src/kex.c:3921-4029 | preferences are replaced by the filtered string; the call fails, and changes nothing, exactly when that is empty or the method type is unknown |
| KexAgree.AgreeInstr | libssh2-1.10.0/src/kex.c:3288-3336 | the index of the first name of the list that equals the needle, or nothing; the one byte behind the list that the search window reaches never changes the answer |
| KexAgree.TokenIffListed | libssh2-1.10.0/src/kex.c:3288-3336 | a delimited occurrence in the list exists exactly when the needle is one of the names between its commas, and at index 0 exactly when it is the first of them |
| Negotiation.FirstListedIsFirst | libssh2-1.10.0/src/kex.c:3522-3548 | the name found is the first client name the server lists, and none is found only when the server lists none |
| Negotiation.AgreedIsFirstPreference | libssh2-1.10.0/src/kex.c:3513-3564 | given preferences of supported names, the method agreed on is the first client preference that the server lists (section 7.1 of RFC 4253), and nothing is agreed on only when they share no name |
| Negotiation.AgreeMethod | libssh2-1.10.0/src/kex.c:3513-3676 | the search for cipher, MAC and compression over the preference string or the table gives that method |
| Negotiation.HostkeyIsFirst | libssh2-1.10.0/src/kex.c:3360-3432 | the host key method is the first listed one that can do what the key exchange asks for: never one that cannot sign when signing is required |
| Negotiation.SuitsExactly | libssh2-1.10.0/src/kex.c:3375-3425 | a key exchange that needs nothing takes any host key, and one that needs encryption, signatures or both takes exactly those that can do that |
| Negotiation.AgreeHostkey | libssh2-1.10.0/src/kex.c:3360-3432 | the walk over the preference string or the table computes that choice; a listed name the table lacks ends it |
| Negotiation.Offer.FirstPair | libssh2-1.10.0/src/kex.c:3437-3507 | the kex and host key agreed on are the lexicographically first acceptable pair, and there is one unless no pair is acceptable |
| KexSession.Session.AgreedPairIsFirst | libssh2-1.10.0/src/kex.c:3437-3507 | the same for the lists a session really offers: preferences set through the filter hold only supported names |
| KexSession.Session.AgreedIsFirst | libssh2-1.10.0/src/kex.c:3513-3676 | the same for cipher, MAC and compression |
| KexSession.Session.SearchPair | libssh2-1.10.0/src/kex.c:3437-3507 | the nested search returns that pair, and tells whether the agreed kex is the first name of the server |
| KexSession.Session.AgreeKexHostkey | libssh2-1.10.0/src/kex.c:3437-3507 | kex and host key are stored, and the flag of a guessed packet is cleared exactly when the agreed kex is the first name of the server; on failure nothing changes |
| KexSession.Session.AgreeMethods | libssh2-1.10.0/src/kex.c:3681-3757 | success exactly when the packet parses and every pair of lists has a usable common name; and the flag that a guessed packet is to be ignored, whether it succeeds or not |
| KexInit.MethodStrLen | libssh2-1.10.0/src/kex.c:3060-3078 | the length of the joined names of a table |
| KexInit.MethodList | libssh2-1.10.0/src/kex.c:3082-3120 | the names of a table, joined, behind a length field; the comma behind the last name stands outside the field and is left to the next one to overwrite |
| KexSession.Session.BuildKexInit | libssh2-1.10.0/src/kex.c:3138-3218 | the buffer is exactly the canonical packet of section 7.1 of RFC 4253: no stray comma survives, and the cursor ends at the length computed beforehand |
| KexSession.Session.SendKexInit | libssh2-1.10.0/src/kex.c:3125-3280 | the packet is built once, the same bytes are sent again after every EAGAIN, and what is kept for the exchange hash is what was sent |
| KexInit.LocateStrings | libssh2-1.10.0/src/kex.c:3690-3725 | the eight strings are located, or the packet is refused, as reading them one after another says |
| KexInit.ParseOfPacket | libssh2-1.10.0/src/kex.c:3690-3727 | reading a packet built from ten lists gives the first eight of them; the byte taken for the flag of a guessed packet is the top length byte of the ninth |
| KexInit.FollowsFlagExactly | libssh2-1.10.0/src/kex.c:3718-3727 | the flag is read as set exactly when the ninth list has 16 MiB or more, so it is read right if and only if being set and that coincide |
| KexInit.FollowsFlagIsMissed | libssh2-1.10.0/src/kex.c:3718-3727 | packets whose flag is set and is read as not set: all those with an empty ninth list |
| KexSession.PacketOffers | libssh2-1.10.0/src/kex.c:3136-3203 | read back, the packet a session builds offers key exchange methods first, host key methods second, then ciphers, MACs and compression methods for each direction: the preferences of the session, or its tables |
| KexSession.AgreeWithPeer | libssh2-1.10.0/src/kex.c:3136-3757 | of two sessions with the same tables and preferences one agrees from the packet of the other if and only if some key exchange and host key method they offer fit together, and then on the first preference of every other kind |
| Mpint.MpintIsCanonical | libssh2-1.10.0/src/kex.c:271-297 | the bytes the `bits % 8` rule writes are the canonical mpint of section 5 of RFC 4251 exactly for the positive numbers, with a zero byte in front exactly when the top bit is set; for 0 the code writes one byte too many |
| Mpint.MpintInjective | libssh2-1.10.0/src/kex.c:271-297 | different numbers are written differently |
| ExchangeHash.WriteMpint | libssh2-1.10.0/src/kex.c:271-297 | the buffer filled for a number is its mpint as a string |
| ExchangeHash.FeedDh | libssh2-1.10.0/src/kex.c:529-622 | what the hash is fed, call by call, is the eight strings of section 8 of RFC 4253 |
| ExchangeHash.FeedEc | libssh2-1.10.0/src/kex.c:1599-1677 | the same for the elliptic-curve form, section 4 of RFC 5656 |
| ExchangeHash.DhPreimageInjective | libssh2-1.10.0/src/kex.c:529-622 | two different tuples of fields never give the same bytes to hash |
| ExchangeHash.EcPreimageInjective | libssh2-1.10.0/src/kex.c:1599-1677 | the same for the elliptic-curve form |
| KeyStretch.StretchKey | libssh2-1.10.0/src/kex.c:70-99 | the loop leaves K1 || K2 || ... in the buffer, so its first bytes are the derived key; writes stay below the requested length plus one digest |
| KeyStretch.BlockEquations | libssh2-1.10.0/src/kex.c:70-99 | the first block is H(K, H, X, session id), block n is H(K, H, K1 .. K(n-1)), and the key is the blocks cut to the requested length (section 7.2 of RFC 4253) |
| KeyStretch.ShorterKeyIsPrefix | libssh2-1.10.0/src/kex.c:70-99 | a shorter key is a prefix of a longer one |
| BlowfishCipher.Context.BlowfishEncipher | libssh2-1.10.0/src/blowfish.c:73-96 | the unrolled cipher with its two alternating halves computes the sixteen Feistel rounds with swaps of the textbook form, for any tables |
| BlowfishCipher.Context.BlowfishDecipher | libssh2-1.10.0/src/blowfish.c:98-121 | the unrolled inverse is the same network with the subkeys in reverse order |
| Blowfish.DecipherEncipher | libssh2-1.10.0/src/blowfish.c:73-121 | deciphering undoes enciphering, and the other way round, for any tables |
| CipherModes.SubstitutionOfBytes | libssh2-1.10.0/src/blowfish.c:66-69 | the substitution of a word looks up its four bytes, first byte first, each in its own box, and mixes them |
| CipherModes.PackedAlike | libssh2-1.10.0/src/blowfish.c:402-422 | the words that keys and salts are mixed in as are made of their bytes in the same order |
| BlowfishCipher.Context.MixKeyIn | libssh2-1.10.0/src/blowfish.c:428-434 | the cyclically repeated key is mixed into the subkeys, word by word |
| BlowfishCipher.Context.Expand0State | libssh2-1.10.0/src/blowfish.c:423-458 | the schedule rewrites the tables it is enciphering with: the state after all pairs are replaced is that of the stepwise definition |
| BlowfishCipher.Context.ExpandState | libssh2-1.10.0/src/blowfish.c:461-502 | the same with salt mixed in before every step |
| Blowfish.ZeroSaltIsNoSalt | libssh2-1.10.0/src/blowfish.c:423-502 | an all-zero salt of any length gives the tables of the schedule without salt |
| Blowfish.OnlySeventyTwoBytesCount | libssh2-1.10.0/src/blowfish.c:402-434 | keys that agree in the first 72 bytes of their cyclic repetition give the same tables, from any starting tables |
| Blowfish.DoubledKey | libssh2-1.10.0/src/blowfish.c:402-434 | a key and the key doubled give the same tables |
| CipherModes.BlfCrypt | libssh2-1.10.0/src/blowfish.c:514-537 | `blf_enc` and `blf_dec` work on the pairs of the array in place, one after the other |
| CipherModes.PairsUndone | libssh2-1.10.0/src/blowfish.c:514-537 | each undoes the other on any run of pairs |
| CipherModes.InPieces | libssh2-1.10.0/src/blowfish.c:514-537 | working in two pieces is working in one |
| CipherModes.UndoneInPieces | libssh2-1.10.0/src/blowfish.c:514-537 | what was enciphered in one go can be deciphered in two pieces |
| CipherModes.EcbInPlace | libssh2-1.10.0/src/blowfish.c:540-582 | the in-place walk computes electronic codebook mode and leaves the rest of the buffer alone |
| CipherModes.EcbUndone | libssh2-1.10.0/src/blowfish.c:540-582 | decryption undoes encryption |
| CipherModes.CbcEncryptInPlace | libssh2-1.10.0/src/blowfish.c:584-607 | the walk forwards, with the block just enciphered as the next vector, computes cipher block chaining and leaves the rest of the buffer alone |
| CipherModes.CbcDecryptInPlace | libssh2-1.10.0/src/blowfish.c:609-648 | the walk backwards, with each vector still untouched in the buffer, computes its inverse |
| CipherModes.CbcUndone | libssh2-1.10.0/src/blowfish.c:584-648 | decryption undoes encryption for any tables, any vector and any number of blocks |
| CipherModes.CbcDecryptBlock | libssh2-1.10.0/src/blowfish.c:609-648 | a block of the decryption depends on its own cipher block and the one before only |
| BcryptPbkdf.ComputeHash | libssh2-1.10.0/src/bcrypt_pbkdf.c:59-98 | `bcrypt_hash` on the Blowfish model: schedule, 64 alternations, 64 encipherings of the text, and the words copied out with their bytes reversed |
| BcryptPbkdf.ComputeBlock | libssh2-1.10.0/src/bcrypt_pbkdf.c:141-158 | the rounds of one block: every hash is salted with the one before, and all are mixed together |
| BcryptPbkdf.GenerateKey | libssh2-1.10.0/src/bcrypt_pbkdf.c:124-172 | exactly `stride` blocks are made, no block is read beyond its 32 bytes, every index of the key is written once, and the key is the derived one, for every key length above 0 and every number of rounds |
| BcryptPbkdf.KeyIsTransposed | libssh2-1.10.0/src/bcrypt_pbkdf.c:160-170 | byte d of the key is a byte of the linear output of section 5.2 of RFC 8018: rows and columns are exchanged |
| BcryptPbkdf.SourceInjective | libssh2-1.10.0/src/bcrypt_pbkdf.c:160-170 | no byte of the linear output is used for two key bytes |
| BcryptPbkdf.ColumnsHoldAll | libssh2-1.10.0/src/bcrypt_pbkdf.c:124-125 | the columns together hold every byte of the key |
| BcryptPbkdf.BcryptPbkdf | libssh2-1.10.0/src/bcrypt_pbkdf.c:100-179 | the arguments that are refused, and the key otherwise |
| Base64.DecodeEncode | libssh2-1.10.0/src/misc.c:271-407 | decoding an encoding gives the bytes back, for every length modulo 3 |
| Base64.TablesAreRight | libssh2-1.10.0/src/misc.c:252-328 | the alphabet is A to Z, a to z, 0 to 9, + and /, and the reverse table is its inverse with nothing else in it |
| Base64.DigitsAreBytes | libssh2-1.10.0/src/misc.c:367-460 | four values are the number that three bytes are |
| Base64.Encode | libssh2-1.10.0/src/misc.c:339-407 | an encoding has four characters for every three bytes begun, none of which means anything in a known_hosts line |
| HostText.NamesOfJoin | libssh2-1.10.0/src/knownhost.c:615-669 | the walk from the end of a host field takes joined names apart into exactly those names, last one first, if and only if no name is empty or has a comma before its last character |
| HostText.EmptyNameIsMisread | libssh2-1.10.0/src/knownhost.c:615-669 | for one: an empty name between two others, and what the field is read as |
| KnownHosts.KnownHosts.Add | libssh2-1.10.0/src/knownhost.c:133-258 | the entry appended, or the error with the list unchanged, for every kind of host, key and typemask |
| KnownHosts.KnownHosts.OldstyleHostline | libssh2-1.10.0/src/knownhost.c:615-669 | the backward walk adds one entry a name until a name is too long; those before it stay |
| KnownHosts.KnownHosts.HashedHostline | libssh2-1.10.0/src/knownhost.c:672-727 | salt and hash are found, with the search for the bar running on behind the host field, and lengths below zero taken as huge |
| KnownHosts.ScanKey | libssh2-1.10.0/src/knownhost.c:756-822 | the key part comes apart into type, key and comment |
| KnownHosts.KnownHosts.Hostline | libssh2-1.10.0/src/knownhost.c:739-841 | the length check, the split of the key part and the choice between the two host formats |
| KnownHosts.KnownHosts.ReadLine | libssh2-1.10.0/src/knownhost.c:871-941 | a line adds what its parts say, or fails, or is skipped as a comment or empty; a newline anywhere in it costs the last character |
| KnownHosts.KnownHosts.ReadFile | libssh2-1.10.0/src/knownhost.c:952-983 | the loop over a file: the number of lines, or the error of the first bad line with everything before it kept |
| KnownHosts.KnownHosts.WriteLine | libssh2-1.10.0/src/knownhost.c:996-1157 | the reported length is that of the whole line whether or not it fits; the buffer holds the line and a zero behind it, or is untouched |
| KnownHosts.KnownHosts.WriteFile | libssh2-1.10.0/src/knownhost.c:1190-1233 | the lines in order, up to the first entry that cannot be printed or does not fit its buffer; where the file takes no more, its front and an error |
| HostRoundTrip.RoundTrip | libssh2-1.10.0/src/knownhost.c:739-1157 | for every entry: it is printed, and reading the line gives back that very entry, if and only if it is well formed and its host and its key part are readable ones; the conditions are spelled out in `WellFormed`, `ReadableHost` and `ReadableKey` |
| HostRoundTrip.ShortTypeNameIsMisread | libssh2-1.10.0/src/knownhost.c:777-790 | a line whose key type name only starts a known one is read as an entry of that type and written with the full name; it is written as it was exactly when its type name is a full one and no blank leads its comment |
| HostRoundTrip.SshBecomesDss | libssh2-1.10.0/src/knownhost.c:777-790 | for one: a line with the type name `ssh-` gives an entry that is written with `ssh-dss` |
| HostRoundTrip.Rsa1CommentIsLost | libssh2-1.10.0/src/knownhost.c:756-766 | an RSA1 entry with a comment is read back as one entry whose key is the key, a blank and the comment, and that has no comment |
| HostRoundTrip.KnownNamesAreRead | libssh2-1.10.0/src/knownhost.c:777-790 | every known key type is recognised from its own name |
| HostEntries.DigitsAreTen | libssh2-1.10.0/src/knownhost.c:746-766 | the digits that tell an RSA1 key are the ten digits |
| HostFiles.FileRoundTrip | libssh2-1.10.0/src/knownhost.c:952-1233 | writing a list of savable entries, each printed as one line that fits the buffer, and reading the file back gives the same entries in order, one a line |
| HostLines.ComesBackExactly | libssh2-1.10.0/src/knownhost.c:599-941 | of the entries a line gives exactly those are given again by the line they are written as that are lasting: the name has three characters or more and does not look like a comment or a hash, a hash and its salt fit their buffers, and the key part written has 20 characters or more |
| HostLines.ShortNamesAreLost | libssh2-1.10.0/src/knownhost.c:599-941 | for one: the host field `ab,cd` gives two entries, and neither comes back from its own line |
| HostFiles.FileComesBackExactly | libssh2-1.10.0/src/knownhost.c:952-1233 | entries that were read, without newlines in their fields, are written to a file and read from it again as the same entries in order, one a line, if and only if each is lasting and its line fits the buffer |
| HostCheck.RuleByMembers | libssh2-1.10.0/src/knownhost.c:403-486 | the result code in terms of which entries there are: a match if some entry has host, key type and key; else a mismatch if some entry has host and type; else not found |
| HostCheck.OrderDoesNotMatter | libssh2-1.10.0/src/knownhost.c:403-486 | permuting the list does not change the result code |
| HostCheck.AddedIsFound | libssh2-1.10.0/src/knownhost.c:133-492 | an entry just added under a known key type, in clear or hashed, is matched by the same arguments exactly unless its key was cut off by a length argument, or it was matched before |
| HostCheck.HashMeansHost | libssh2-1.10.0/src/knownhost.c:421-441 | the HMAC of a host, in base64, with its salt stands for that host |
| HostCheck.StrangerIsNotFound | libssh2-1.10.0/src/knownhost.c:404-471 | an entry that stands for none of the names tried, in clear or hashed, is not found |
| HostCheck.TypesAreCompared | libssh2-1.10.0/src/knownhost.c:442-471 | of an entry for the host the key types decide whether the keys are compared, and then the keys decide |
| HostCheck.DecimalReadsBack | libssh2-1.10.0/src/knownhost.c:370-381 | the port is written as the digits that stand for it, without a leading zero |
| HostCheck.CutKeyIsNotFound | libssh2-1.10.0/src/knownhost.c:133-492 | for one: an SSH-RSA key added with a length short of its text, and then checked by the same arguments, is reported as a mismatch |
| KnownHosts.KnownHosts.Pass | libssh2-1.10.0/src/knownhost.c:404-477 | one pass finds the first full match, and remembers the first entry with host and type but another key |
| KnownHosts.KnownHosts.Search | libssh2-1.10.0/src/knownhost.c:403-486 | the passes over the tried names compute the declarative rule, with the entry that is reported |
| KnownHosts.KnownHosts.Check | libssh2-1.10.0/src/knownhost.c:349-492 | the guards, `[host]:port` before `host`, the key in base64, and then that search |
| PacketQueue.SelectedByStream | libssh2-1.10.0/src/channel.c:2059-2070 | the tests of reading and flushing pick exactly the packets of a channel whose stream is asked for |
| PacketQueue.TakeConserves | libssh2-1.10.0/src/channel.c:2027-2109 | on every stream of every channel the bytes taken followed by those that stay are the bytes that were there |
| PacketQueue.OthersKept | libssh2-1.10.0/src/channel.c:2027-2109 | reading and flushing leave every other channel, and every stream that is not asked for, as it is |
| PacketQueue.TakeCounts | libssh2-1.10.0/src/channel.c:2125-2126 | as many bytes are taken as the channel has fewer waiting; other channels keep their count |
| PacketQueue.TakeDrains | libssh2-1.10.0/src/channel.c:2027-2109 | a read stops short only when nothing that is asked for is left |
| PacketQueue.ArrivalKeepsBalance | libssh2-1.10.0/src/packet.c:1029-1046 | a packet that is queued keeps the balance of arrived, taken and queued bytes |
| PacketQueue.TakingKeepsBalance | libssh2-1.10.0/src/channel.c:2027-2109 | reading and flushing keep it |
| PacketQueue.WalkTakes | libssh2-1.10.0/src/channel.c:2072-2105 | one step of the read loop: a packet is taken as a whole and unlinked, or cut and left with its head moved |
| PacketQueue.NothingWaiting | libssh2-1.10.0/src/channel.c:2460-2481 | with no packet of a channel in the queue nothing waits on any of its streams |
| Channels.Channel.ReceiveWindowAdjust | libssh2-1.10.0/src/channel.c:1779-1841 | when an adjustment is queued, what is sent and by how much the window grows, on the first call and on a retry, what a failure leaves behind, and in each case what is noted as asked for and answered, and whether the books stay exact |
| Channels.GrowthIsCredit | libssh2-1.10.0/src/channel.c:1821-1836 | the window grows by what is granted on the wire if and only if the argument of the call is the pending amount |
| Channels.RetriedAdjust | libssh2-1.10.0/src/channel.c:1821-1836 | for one: 500 bytes queued and 2000 asked for, put off and asked for again: 2500 are granted on the wire, the window grows by 2000, and the books are out |
| Channels.WindowConserved | libssh2-1.10.0/src/channel.c:1779-1841 | while the books are exact and no adjustment waits, window plus queue plus bytes consumed is the initial window plus all adjustments asked for, and the credit on the wire is the growth of the window, modulo 2^32; the contracts of the calls say when they stay exact, and `Runs.Run` states this without the flag |
| Channels.ConsumptionKeeps | libssh2-1.10.0/src/channel.c:2125-2126 | reading keeps these books |
| Channels.Channel.ExpandWindow | libssh2-1.10.0/src/channel.c:1997-2016 | what a completed adjustment makes of the window, in `uint32_t` sums, for any state it can be called in, at least three quarters of the initial one plus the buffer where there is room for it; what was asked for and answered; and that the books stay exact unless it fails or is retried with another amount |
| Channels.WideAfterExpand | libssh2-1.10.0/src/channel.c:1997-2016 | given that the initial window and the buffer fit 32 bits, what a read finds of the window is wide enough if and only if it was, or there is room for what is added; whatever is queued |
| Channels.WideEnoughExactly | libssh2-1.10.0/src/channel.c:1997-2016 | the same about the numbers alone, on a first call and on a retry, with any window and any queue; the room is spelled out in `RoomToWiden` |
| Channels.RoomWithShortQueue | libssh2-1.10.0/src/channel.c:1997-2016 | with less than the smallest adjustment in the queue there is room exactly when the sum fits 32 bits, or the window is wider than need be already |
| Channels.QueueMakesWindowWrap | libssh2-1.10.0/src/channel.c:1997-2016 | for one: an initial window and a buffer that fit 32 bits, with 1000 bytes queued, leave a window of 744 |
| Channels.Channel.Consume | libssh2-1.10.0/src/channel.c:2125-2126 | the bytes read leave the window modulo 2^32, without underflow if it holds them |
| Channels.OrderlyStep | libssh2-1.10.0/src/channel.c:1436-1536 | what one more message does to the counts of process requests, closes and requests under way |
| Channels.SendingKeepsBooks | libssh2-1.10.0/src/channel.c:2351-2354 | sending or giving up the frozen bytes keeps what was sent and what is open within what was granted, even if the window underflows |
| Channels.GrantKeepsBooks | libssh2-1.10.0/src/packet.c:999-1021 | so does a grant, even if the window wraps around under a frozen write |
| Channels.UnderflowExactly | libssh2-1.10.0/src/channel.c:2312-2352 | the window is too small for the frozen bytes if and only if grants since they were frozen carried it past 2^32 to less than them |
| Channels.OvergrantUnderflows | libssh2-1.10.0/src/channel.c:2351-2352 | for one: 100 bytes wait and 2^32 - 50 more are granted; the window is 50, and 2^32 - 50 after the send |
| Channels.LowerKeeps | libssh2-1.10.0/src/channel.c:2351-2354 | a data message keeps the books over the whole history of the window: what was sent and is open is within the confirmed window and the grants since, and with a conforming other side it is all of that and no message took more than the window held |
| Channels.RaiseKeeps | libssh2-1.10.0/src/packet.c:999-1021 | so does a grant of any size |
| Channels.NothingLostExactly | libssh2-1.10.0/src/channel.c:261-262 | with a conforming other side, what was sent and is open is the confirmed window and all grants ever, if and only if nothing was granted before the confirmation was taken |
| Channels.EarlyGrantIsLost | libssh2-1.10.0/src/channel.c:261-262 | for one: 50 bytes granted before a confirmation with a window of 100: the other side conforms, and 100 of 150 bytes are left |
| Channels.MovesDetermined | libssh2-1.10.0/src/channel.c:2351-2354 | the history of a send window is determined by the grants and by what the channel did between them |
| Sessions.Session.Locate | libssh2-1.10.0/src/channel.c:94-121 | the owner of an id among the session and its listeners, none if there is none, and the only one if ids are distinct |
| Sessions.Session.NextId | libssh2-1.10.0/src/channel.c:61-87 | the id handed out, and the counter behind it; fresh while the counter has not wrapped |
| Sessions.NextIdIsFresh | libssh2-1.10.0/src/channel.c:61-87 | the id is fresh if and only if the counter is above all ids of the session and is not that of a queued channel |
| Sessions.IdsRepeat | libssh2-1.10.0/src/channel.c:76-83 | behind the highest id the counter starts over at 0; while it is not above the id of some channel of the session, the id handed out is that of a channel in use |
| Sessions.Session.NewChannel | libssh2-1.10.0/src/channel.c:150-185 | a new channel has an id no live channel has, and nothing waits for it |
| Sessions.Session.AddData | libssh2-1.10.0/src/packet.c:660-792 | of a packet for a channel with room the smallest of the payload, the packet size and what is open of the window is queued and counted, and the end of data is taken back; of a packet without a channel, or for a full window, nothing is; all invariants are kept |
| Sessions.DataArrives | libssh2-1.10.0/src/packet.c:669-792 | a data message, laid out as in section 5.2 of RFC 4254, whose bytes fit the packet size and what is open of the window is queued as a whole, and its bytes arrive |
| Sessions.ExtendedDataArrives | libssh2-1.10.0/src/packet.c:658-792 | the same for extended data of any type |
| Sessions.KeptFitsExactly | libssh2-1.10.0/src/packet.c:767-784 | no more is kept than is open of the window, if and only if the counter does not wrap around to no more than the window |
| Sessions.WrapLetsTooMuchIn | libssh2-1.10.0/src/packet.c:767-784 | for one: 240 bytes are open, the counter wraps around, and 4096 are kept |
| Sessions.Session.AddWindowAdjust | libssh2-1.10.0/src/packet.c:999-1021 | the send window of the addressed channel grows modulo 2^32, and the grant is noted for it and for no other; what holds for the sending of every channel is kept |
| Sessions.Session.AddEof | libssh2-1.10.0/src/packet.c:799-945 | end and close are noted on the addressed channel and on no other |
| Sessions.Session.PacketAdd | libssh2-1.10.0/src/packet.c:475-1086 | the effect of each kind of packet, with all invariants kept |
| Sessions.Session.QueueListener | libssh2-1.10.0/src/packet.c:73-279 | one call for a forwarded connection, at the first listener for its host and port: the state, the channel held and the queue of that listener become what `Accept.Pass` says, a channel with the numbers of the request is made exactly in the first call at a listener with room, and no other queue changes |
| Sessions.FullExactly | libssh2-1.10.0/src/packet.c:154-161 | no queue is longer than its limit, and a listener with a limit is full exactly at it |
| Sessions.Session.JoinQueue | libssh2-1.10.0/src/packet.c:241-246 | the channel held stands at the end of that queue, the other queues are as they were, and the live channels are the same |
| Sessions.Session.Remove | libssh2-1.10.0/src/misc.c:568-580 | the channel leaves the list and is then in no list and no queue; the others stay where they are |
| Sessions.Session.TakeFromQueue | libssh2-1.10.0/src/channel.c:744-762 | the first channel of a queue is then the last of the session, and stands in no other place |
| Sessions.RemovedIsGone | libssh2-1.10.0/src/misc.c:568-580 | with no channel in two places, taking one out of the list takes exactly it out of all lists and queues |
| Sessions.QueuedIfSentAtOnce | libssh2-1.10.0/src/packet.c:137-279 | over any number of calls for one connection, its channel joins the queue if and only if the queue had room and the confirmation was sent in the very call that made the channel; otherwise no queue changes |
| Sessions.RetriedIsLost | libssh2-1.10.0/src/packet.c:148-250 | for one: a listener with an empty queue, the confirmation put off once and then sent: the channel is queued nowhere |
| Sessions.LoseConnection | libssh2-1.10.0/src/packet.c:148-250 | the same with the two calls themselves, at any listener with room: an id is used up, the other side is told the channel is open, and no list has it |
| Sessions.Session.AddListener | libssh2-1.10.0/src/channel.c:543-586 | a listener with an empty queue joins the others, and the live channels are the same |
| Sessions.Session.TransportRead | libssh2-1.10.0/src/transport.c:273-330 | one event is taken in and its result returned, or none and the reason is given; the queue grows by the packet the event brings, cut to what is kept of it, and by nothing else, and the event is noted; all invariants are kept, among them that what arrived, and what was granted to each channel since it was made, is what the events taken in brought |
| Sessions.Session.ReadAll | libssh2-1.10.0/src/channel.c:2018-2022 | events are taken in up to the first whose result is not positive, or until there is none or the connection is gone; the queue grows by what they bring, in order |
| Sessions.Session.TakePackets | libssh2-1.10.0/src/channel.c:2027-2109 | the loop over the queue with its unlinking and cutting takes what the specification says, and fills the buffer with it |
| Sessions.Session.FlushPackets | libssh2-1.10.0/src/channel.c:1588-1649 | the flush loop drops every packet that is meant, and counts its bytes and its refund |
| Sessions.Session.Fetch | libssh2-1.10.0/src/channel.c:2018-2109 | first the packets of all events taken in are queued behind what was there, then as much as the buffer takes of that queue is read, unless the connection failed |
| Sessions.Session.AwaitReply | libssh2-1.10.0/src/packet.c:1286-1337 | nothing but one reply for this channel leaves the queue, now or when it has come in: the first good one, or the first bad one if there is no good one; with a reply queued nothing is read; without success no reply is left in the queue, the code says why, and nothing is read behind what ended the search; all invariants are kept for every channel |
| ChannelRead.Read | libssh2-1.10.0/src/channel.c:1980-2129 | the bytes returned are the front of what is asked for, nothing else is taken, it falls short only when no more is queued; without bytes it is 0 just if the channel is at its end or closed, or reading came to nothing, and else says that there is nothing yet; a completed read leaves the widened window less these bytes, at least three quarters of the initial one where there was room for the adjustment; what was asked for, answered and consumed is noted, and the books stay exact unless the adjustment fails or is retried with another amount; every channel stays sound |
| ChannelRead.Flush | libssh2-1.10.0/src/channel.c:1580-1669 | nothing of the flushed streams is left and nothing else is taken; the cached counter is right afterwards if and only if the call was not a retry or no bytes had been flushed; what was asked for, answered and consumed is noted, and the books stay exact unless the adjustment fails, or a retry takes bytes off once more or sends another amount |
| ChannelRead.RetriedFlush | libssh2-1.10.0/src/channel.c:1654-1664 | for one: a byte is flushed, the adjustment is put off and the flush called again: nothing waits, and the counter is 2^32 - 1 |
| ChannelRead.IsEof | libssh2-1.10.0/src/channel.c:2447-2482 | the end is reported exactly when it was received and no packet of the channel is queued, and then nothing waits on any stream |
| ChannelRead.WindowRead | libssh2-1.10.0/src/channel.c:2825-2871 | the recomputed count, which the cached one equals |
| ChannelWrite.WriteSize | libssh2-1.10.0/src/channel.c:2299-2324 | a message fits the buffer, 32700 bytes, the send window and the packet size, and is no shorter than the smallest of them |
| ChannelWrite.SendData | libssh2-1.10.0/src/channel.c:2338-2369 | the frozen part goes out and leaves the send window, which underflows exactly if grants since the freeze wrapped it around to less, and never while the other side keeps to section 5.2 of RFC 4254; or it stays frozen |
| ChannelWrite.StartWrite | libssh2-1.10.0/src/channel.c:2299-2336 | the size is fixed as the smallest of the four limits, together with the window and the grants it was fixed at |
| ChannelWrite.Write | libssh2-1.10.0/src/channel.c:2240-2372 | one message with the front of the buffer, or none; the size is frozen over EAGAIN; called afresh it passes on a failed read or a closed window, refuses a channel that is closed or at its end, and else the smallest of the four limits goes out and leaves the window, waits for the socket, or is given up |
| ChannelWrite.Pump | src/main.c:680-701 | the messages sent, one after another, followed by what is left are the bytes taken from the terminal; what the calls took is what is gone, an error ends the loop, and all of the input is gone once as many calls as it has bytes have each taken something |
| Requests.SetEnv | libssh2-1.10.0/src/channel.c:801-900 | a sequence of calls that ends with success has sent one request, that of its first call, and has taken a success for it out of the queue; a failure taken out is a denial; without a reply none is left in the queue |
| Requests.RequestPty | libssh2-1.10.0/src/channel.c:927-1023 | the same for a terminal, where denial means that a failure was taken out; names and modes that do not fit are refused before anything is sent |
| Requests.ProcessStartup | libssh2-1.10.0/src/channel.c:1436-1536 | a channel sends at most one process request in its lifetime; a used one is refused; success means that a success for it was taken out of the queue, and a failure taken out is a denial |
| Requests.SendEof | libssh2-1.10.0/src/channel.c:2399-2423 | the end of data is noted exactly when it was sent |
| Requests.CloseChannel | libssh2-1.10.0/src/channel.c:2550-2631 | at most one close is sent, whatever fails or blocks; anything but EAGAIN leaves the channel closed; each call sends the end of data unless it was sent and then the close unless it was sent, or says why not; when 0 comes back for an open channel exactly one close has been sent, and the other side has closed exactly if it had before, or the first event with a result is its close |
| Requests.AwaitClose | libssh2-1.10.0/src/channel.c:2607-2613 | the waiting ends with the first event that has a result, whatever it is, and with its result |
| Requests.CloseTooEarly | libssh2-1.10.0/src/channel.c:2607-2613 | for one: a close was sent, a packet to be ignored comes in, and the channel counts as closed although the other side has not closed it |
| ChannelOpen.Open | libssh2-1.10.0/src/channel.c:128-348 | a call that succeeds has taken the confirmation for the channel out of the queue, and the channel has the remote id, the window and the packet size it names, with all earlier grants noted as lost; success adds one channel, final failure leaves no channel with its id anywhere, the others where they were, and nothing of the channel in the queue; only bytes of that channel are dropped; with the reply queued nothing is read; all other channels stay sound |
| ChannelOpen.AbandonOpen | libssh2-1.10.0/src/channel.c:311-347 | the channel leaves the list and stands nowhere else, no packet for it is left in the queue, and only bytes for it are dropped |
| ChannelOpen.Confirm | libssh2-1.10.0/src/channel.c:249-281 | the confirmed channel carries the numbers of the reply; all grants so far are noted as early, outside the window; its books are in order |
| ChannelOpen.LoseGrant | libssh2-1.10.0/src/channel.c:225-281 | for one, with the calls themselves: an opening waits for its reply, a confirmation of 100 bytes and a grant of 50 come in while something else is read, and the resumed opening leaves a window of 100 |
| ChannelOpen.ForwardAccept | libssh2-1.10.0/src/channel.c:744-775 | the first channel of the queue moves to the end of the session and is in no other place, the rest of the queue stays |
| Runs.Step | libssh2-1.10.0/src/channel.c:61-2871 | any call on any channel of the session, or that opens one, sets up a listener or accepts from one, with anything coming in and any answer from the transport layer, does what it is for and keeps all invariants of all channels; an adjustment of a channel was put off or failed exactly if a call on that channel left it adjusting, and a flush was put off exactly if it left it flushing |
| Runs.Run | libssh2-1.10.0/src/channel.c:61-2871 | from the beginning of a session any sequence of calls, with fewer than 2^32 channels opened by either side, ends with all of them and with what `Runs.AlwaysHolds` lists, given what could be seen of each channel after each call on it: no flag is left that a caller could not see; openings and listeners are never passed over, and every call on a channel that was made is reported |
| Runs.AlwaysHolds | libssh2-1.10.0/src/channel.c:61-2871 | at any point of any run: the events taken in and those to come are what the network delivers; what arrived is what they brought; no channel stands in two places. For every channel: arrived bytes are taken ones followed by queued ones on every stream; the cached counter is the recomputed one if no call left it flushing; window plus queue plus bytes taken is the initial window plus all that was asked for if no call left it adjusting; its grants are those of the events since it was made; data sent and the open window are within the confirmed window and the grants, whatever the other side does; while the other side keeps to section 5.2 of RFC 4254 no message takes more than the window holds and nothing granted since the confirmation is lost; no message is too long; at most one process request and one close; no other channel has its id |

## Left out

Weaker than the source in some respect:

- Sessions.Session.PacketAdd: channel and global requests of the other side, and X11 openings, are dropped without the reply they may ask for; the mode that ignores extended data, with its refund, is not part of the model.
- Sessions.Session.QueueListener: the parsing of the request is part of the event.
- Sessions.Session.TransportRead: the record layer (decryption, MAC, compression) and key re-exchange in the middle of a read or write are not part of the model.
- Sessions.Session.AwaitReply: the clock is an arbitrary decision whether the wait has taken too long.
- ChannelWrite.Write: a write that returned EAGAIN is resumed with the same arguments, as its documentation asks.
- ChannelWrite.Pump: the loop of the terminal spins for as long as the window is closed, which may be for ever; the model stops after a number of steps given to it, and says what the calls up to then have come to.
- Runs.Run: channels are not freed; a call that nobody can make, on a channel that has not been opened, at a listener that is not there or a write resumed with other arguments, is passed over; a listener appears once the other side has agreed to it, and that exchange is not part of the model.
- HostRoundTrip.RoundTrip: strings without zero characters.
- HostFiles.FileRoundTrip: files without zero characters; each entry must be printed as one line.
- HostFiles.FileComesBackExactly: entries without newlines in their fields; a line without a key, whose long type name counts as its key part, can give a key that is a newline.
- KnownHosts.KnownHosts.ReadLine: a line without zero characters, with one behind it.
- KnownHosts.KnownHosts.WriteFile: a write takes as much as still fits the file.
- KnownHosts.KnownHosts.WriteLine: an empty host hash or salt counts as one that cannot be encoded; the code takes the length of such a buffer from what happens to stand in it.
- KexSession.Session.AgreeMethods: the tables of methods are assumed to name every method once and without commas.
- KexSession.PacketOffers: no table of methods is empty, and every list is shorter than 2^32 bytes.
- BcryptPbkdf.BcryptPbkdf: SHA-512 is an arbitrary function with 64-byte results, and the Blowfish tables to start from are arbitrary.

Not modelled:

- Allocation failures, freeing, debug output, error messages; the byte layout of the messages a channel sends.
- Hashes, HMAC and exponentiation are arbitrary functions; the table of digits of Pi and the Diffie-Hellman primes do not occur.
- The exchange hash of group exchange, which appends a raw packet tail, so that unique decoding is not promised for it.
- `channel_request_auth_agent`, X11, direct-tcpip and forward-cancel requests: the same machine again, or one that falls through on EAGAIN.
- `libssh2_channel_read_ex`, `libssh2_channel_wait_eof`, `_libssh2_channel_free` and the blocking wrappers: loops around what is modelled.
- The message exchanges of the key exchange methods, user authentication, the agent, SFTP, SCP, compression and keep-alive.
- The AmigaOS user interface, and everything of `src/main.c` but the write loop.
