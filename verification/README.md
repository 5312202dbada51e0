# PSRP client: a Dafny model

This project models go-psrpcore, a Go client for the PowerShell Remoting Protocol (MS-PSRP), and
proves properties of the model. `dafny verify dfyconfig.toml` checks everything.

The model has four layers.

* **CLIXML strings** (`ClixmlString`, `ClixmlEscapes` and `ClixmlCanonical`, over `Utf8`): the `_xHHHH_` escapes with
  UTF-16 surrogate pairs, byte for byte.
* **CLIXML graphs** (`Clixml*`): a serializer that numbers PSObjects as it meets them and refers back
  to them, and a deserializer driven by XML tokens with two reference tables and a depth counter.
  `ClixmlWriter` and `ClixmlReader` say what the two do; `ClixmlSerializer` and `ClixmlDeserializer` are
  the objects with their fields and loops, proved to do exactly that. `ClixmlReadBack` is the induction
  over both. `ClixmlGraph`, `ClixmlCycles`, `ClixmlScan`, `ClixmlNames` and `ClixmlImage` say what it
  means for the graph of objects; `ClixmlIsomorphism` says when a graph comes back as it was,
  `ClixmlLosses` what becomes of one that does not, and `ClixmlInputs` gives a document for each case.
  `ClixmlSession` says all this of several documents that share their tables. `ClixmlForms` and
  `ClixmlElements` pin the elements down one by one, in what is written and in what is read.
* **The wire**: fragments and their reassembly (`Fragments`, `Assembly`), messages (`Messages`), the
  pool's send and receive loops (`Wire`, and `Interleaving` for mixed fragments), the OutOfProcess line
  protocol (`OutOfProc`, over `Text`) and the adapter that queues its data (`Adapter`). `EndToEnd`
  follows a message through all of them.
* **State machines**: opening a runspace pool (`Handshake`), and pipelines with their streams and the
  pool's cleanup (`Pipeline`). `ServerDocuments` reads their messages through the deserializer.

Text is kept as bytes. A PSObject pointer is an integer into a heap; the reader hands out addresses in
the order of Obj elements, so that the object numbered n is found at the reader's first address plus n.
The serializer functions return, beside the tokens, the value and the objects that a reader of these
tokens ends up with (`image`, `nodes`), whether a reference to an object still open was written (`back`),
and the nesting depth (`need`). The round trip is proved with these for every value and every graph,
without preconditions on their contents.

What the image is, is proved separately, again for every value (`ClixmlImage`). It is the value in normal
form: members become properties, or are hidden when there are properties as well; an unnamed property, an
object's wrapped value and the names of a typed list are not written or not read; an int is cut to the nearest 32-bit number;
an enum becomes an object around its number. Beyond the normal form three things can change, and
`ReadsBackIsomorphic` shows that nothing else does, and when they do not:

* a text that is not valid UTF-8 and had to be encoded has its ill-formed bytes replaced;
* a hashtable key, which the source writes unencoded but decodes, changes when it holds a complete escape,
  and may fall together with another;
* type names are looked up by their text joined with bars, so that an object is given the list filed first
  under that text. `AllFilings` lists what is filed, in document order, by walking the value.

Concurrency is modelled by events, one for each step that a lock or a channel makes indivisible, and the
claims are about every sequence of them.

Where the code does other than one would expect, the model follows the code and the exact condition is a
lemma: cyclic graphs cannot be read back (`ReadsBackIff`), a message can complete with fragments missing
(`CompleteHasAllIff`), splitting can panic (`PanicsIff`), and so can decoding a
fragment (`DecodeOutcomes`, `ProcessPanicsIff`), an ended pipeline can be revived by the server
(`EndedKeptIff`), a late stream message panics (`HandleMessage`), type names can be mixed up
(`AllNamesKeptIff`), hashtable keys can merge (`HashtableKeptIff`). The comment on
`receiveSessionCapability` asks for protocol versions 2.x; the code accepts any text of at least two bytes
that begins with a 2, and so does the model.

## Model

| member | source | states |
|---|---|---|
| ClixmlString.EncodeClixmlString | serialization/clixml_string.go:75-110 | the encoder, a loop over runes with a builder, returns what the specification function gives, fast path included |
| ClixmlString.DecodeClixmlString | serialization/clixml_string.go:22-66 | the decoder, a loop over bytes that joins surrogate pairs, returns what the specification function gives, fast path included |
| ClixmlString.EncodeAt | serialization/clixml_string.go:83-107 | one round of the encoding loop: what is appended and how far it advances |
| ClixmlString.DecodeAt | serialization/clixml_string.go:32-63 | one round of the decoding loop |
| ClixmlString.NeedsClixmlEncoding | serialization/clixml_string.go:115-128 | true exactly when some rune must be escaped or some underscore stands before an x |
| ClixmlString.ContainsClixmlEscape | serialization/clixml_string.go:139-146 | true exactly when an underscore stands before an x somewhere |
| ClixmlString.ParseHex4Loop | serialization/clixml_string.go:150-166 | four hex digits in either case, read as one 16-bit number |
| ClixmlString.WriteHex4 | serialization/clixml_string.go:168-179 | the escape of a 16-bit number, appended |
| ClixmlString.RoundTripIff | serialization/clixml_string.go:22-110 | decoding what was encoded gives the text back if and only if it is valid UTF-8 or needed no encoding; otherwise it gives the text with each ill-formed byte replaced by U+FFFD |
| ClixmlString.EncodeInjective | serialization/clixml_string.go:75-110 | two valid texts with the same encoding are the same |
| ClixmlString.DecodeEncodeSlow | serialization/clixml_string.go:75-110 | the two scans stay in step: every encoder step is undone by decoder steps, although an escape-like `_x` may span two of them |
| ClixmlString.EncodedTextIsPlain | serialization/clixml_string.go:75-136 | for valid text the output is valid, has no control or supplementary rune, and is at most seven times as long |
| ClixmlString.DecodedTextIsValid | serialization/clixml_string.go:22-66 | for valid text the output is valid and no longer than the input |
| ClixmlString.DecodeInFront | serialization/clixml_string.go:38-58 | what an escape in front becomes, before whatever follows it: a proper surrogate pair one rune, a lone surrogate U+FFFD, any other unit itself |
| ClixmlString.DecodeFastPath | serialization/clixml_string.go:23-26 | skipping the decoding loop changes no result |
| ClixmlString.EncodeFastPath | serialization/clixml_string.go:76-78 | skipping the encoding loop changes no result if and only if the text is valid or the loop is not skipped |
| ClixmlEscapes.EncodeInFront | serialization/clixml_string.go:75-136 | the encoding of a valid text rune by rune, in code points and bytes: C0, DEL and C1 become one escape, a rune beyond U+FFFF two, an underscore before an x _x005F_, and every other rune itself |
| ClixmlEscapes.EncodedBytes | serialization/clixml_string.go:75-136 | the encoding of a valid text holds no byte below 20, no 7F, none from F0 on, and no C2 before 80 to 9F |
| ClixmlEscapes.EncodeFixedIff | serialization/clixml_string.go:75-136 | a valid text is its own encoding if and only if it holds none of these and no underscore before an x |
| ClixmlEscapes.EscapeIs | serialization/clixml_string.go:168-179 | an escape is spelled with a small x and four upper-case digits |
| ClixmlEscapes.EscapeIff | serialization/clixml_string.go:32-38 | an escape is recognised with an x and digits in either case, and read as the unit they spell |
| ClixmlEscapes.DecodeCopied | serialization/clixml_string.go:32-66 | a byte that begins no escape is copied |
| ClixmlEscapes.DecodePair | serialization/clixml_string.go:40-53 | the escapes of a high and then a low surrogate become one rune |
| ClixmlEscapes.DecodeLone | serialization/clixml_string.go:56-58 | any other surrogate becomes U+FFFD |
| ClixmlEscapes.DecodeUnit | serialization/clixml_string.go:56-58 | the escape of any other unit becomes that rune |
| ClixmlCanonical.EncodeAfterDecodeIff | serialization/clixml_string.go:22-110 | the other way round: a valid text is encoded again as it was if and only if every escape in it is spelled as the encoder spells it and is needed, and nothing else in it wants one |
| ClixmlCanonical.EncodedIsCanonical | serialization/clixml_string.go:75-110 | what the encoder writes for valid text is such a text |
| ClixmlCanonical.EncodeAfterDecodeDiffers | serialization/clixml_string.go:22-110 | a text that is not: an escaped letter is decoded and then written as itself |
| ClixmlCanonical.DecodeFixedIff | serialization/clixml_string.go:22-66 | decoding leaves a text alone if and only if it holds no complete escape, and makes any other shorter |
| Utf8.SanitizeFixesValid | serialization/clixml_string.go:84-104 | replacing ill-formed bytes as the rune functions do is the identity exactly on valid UTF-8 (section 3 of RFC 3629) |
| Decimal.ParseItoa | serialization/clixml.go:560-584 | decimal text of an integer parses back within the bounds of its width |
| Decimal.ParseIff | serialization/clixml.go:1391-1403 | a text is read as a number if and only if it is the number in decimal behind any zeros, with or without a sign, and within the bounds |
| Base64.DecodeEncode | serialization/clixml.go:616-630 | base64 (section 4 of RFC 4648) gives every byte string back |
| Base64.NewlineIgnored | serialization/clixml.go:1420-1425 | a line break anywhere in a base64 text makes no difference |
| Base64.DecodeIff | serialization/clixml.go:1420-1425 | a text decodes if and only if, but for line breaks, it is groups of four digits of which the last may end in one or two pads |
| Base64.EncodeDecoded | serialization/clixml.go:1420-1425 | a text without pads is the encoding of what it decodes to |
| Guid.FormatIs | outofproc/transport.go:381-383 | the text of a GUID: lower-case digits in groups of 8, 4, 4, 4 and 12 |
| Guid.ParseIff | serialization/clixml.go:1427-1432 | a text parses as a GUID if and only if it is that text but for upper-case digits |
| Guid.ParseFormat | serialization/clixml.go:645-656 | the canonical text of a GUID parses back |
| Clixml.CappedToNearest | serialization/clixml.go:94-102 | a Go int is written as the nearest 32-bit number: itself, or the limit on its side |
| Clixml.LessIff | serialization/clixml.go:1206 | the order of the keys: one is the other cut short, or has the smaller byte where they first differ |
| ClixmlForms.LeafForm | serialization/clixml.go:396-509 | the tokens of every kind of leaf, with tag, name and text: true and false, digits, base64, GUIDs, encoded texts |
| ClixmlForms.ListForm | serialization/clixml.go:763-790 | all tokens of the document of a list of one number, with the names System.Object[], System.Array and System.Object |
| ClixmlForms.HashtableForm | serialization/clixml.go:1181-1223 | all tokens of the document of a hashtable of one number, with its two type names, and Key and Value |
| ClixmlForms.EnumForm | serialization/clixml.go:709-761 | all tokens of the document of an enum, with its four type names |
| ClixmlForms.ObjectForm | serialization/clixml.go:1046-1160 | all tokens of the document of an object with a type name, a string, a member and a property |
| ClixmlTables.WriteKeeps | serialization/clixml.go:396-509 | every value written keeps the reference tables consistent: ids below the counter and distinct, each TN id with one list, old entries untouched |
| ClixmlTables.WriteObjectKeeps | serialization/clixml.go:1046-1160 | the same for an object and all that is written inside it |
| ClixmlWriter.UnvisitedDrops | serialization/clixml.go:1046-1050 | numbering an object on entry lowers the count of unvisited ones, the measure by which serialization terminates on any graph |
| ClixmlScan.DocumentIds | serialization/clixml.go:1046-1050 | a scan of the tokens finds the Obj ids and the TN ids dense and ascending from 0, every object with an id of its own, and the nesting depth of the deepest value |
| ClixmlGraph.DocumentObjects | serialization/clixml.go:1046-1160 | the objects given an element are exactly those reachable from the value: the least set closed under pointers that holds its pointers |
| ClixmlNames.DocumentFiles | serialization/clixml.go:1064-1087 | for every heap and value: the lists numbered in a document are, in order, those whose joined text was not filed before on a walk over the value; a text stands for the first list filed under it; the objects numbered are those walked |
| ClixmlScan.NamesWrittenOnce | serialization/clixml.go:1064-1087 | the names in the TN elements of a document are these lists; none stands there twice, with the one exception of the hashtable list, which an object can write once more |
| ClixmlLosses.NamesReadBack | serialization/clixml.go:1064-1087 | each reachable object is read with the first list filed under the joined text of its own |
| ClixmlLosses.AllNamesKeptIff | serialization/clixml.go:1064-1087 | all objects keep their names if and only if the list of each is the first filed under its joined text |
| ClixmlLosses.NeverBothKept | serialization/clixml.go:1064-1076 | of two reachable objects with different lists and the same joined text one at least loses its names |
| ClixmlLosses.CleanNamesKept | serialization/clixml.go:1064-1087 | where no list has a bar in it or is just System.Collections.Hashtable, all objects keep their names |
| ClixmlInputs.BarsClash | serialization/clixml.go:1064-1066 | a document on which this fails: an object with the names a and b, after one with the single name a|b, is read with that name |
| ClixmlInputs.HashtableClash | serialization/clixml.go:1181-1190 | another: an object named just System.Collections.Hashtable is read with the two names of the hashtable before it |
| ClixmlElements.SkipsElement | serialization/clixml.go:1506-1512 | an element that is skipped takes with it whatever is in it |
| ClixmlElements.ReadsDirectText | serialization/clixml.go:1381-1385 | the text of an element is the character data directly inside it |
| ClixmlElements.ReadsSimple | serialization/clixml.go:1371-1513 | any leaf, Nil or unknown element, whatever is in it, below the depth limit: it is taken off the tokens and has the value that its tag and text mean; Version is text as it stands, B is true for true only, an unknown element is nil |
| ClixmlElements.ReadsProperty | serialization/clixml.go:1812-1847 | in MS or Props such an element becomes the property of its name, and one without a name is dropped |
| ClixmlElements.ReadsBag | serialization/clixml.go:1812-1847 | a whole MS or Props of them: the last under each name |
| ClixmlElements.ReadsObjectWith | serialization/clixml.go:1624-1783 | an object with such a bag is read with it as its properties |
| ClixmlElements.ReadsInner | serialization/clixml.go:1743-1765 | such an element directly in an object is a property when named, the wrapped value when not, and nothing when nil |
| ClixmlElements.ReadsTypeNameRef | serialization/clixml.go:1684-1698 | a reference to type names that are not on record, or without an id, changes nothing |
| ClixmlElements.ReadsToString | serialization/clixml.go:1700-1705 | the string of an object is the decoded text directly in it |
| ClixmlElements.ReadsEntriesInside | serialization/clixml.go:1714-1731 | a DCT in an object is its value if the first type name is System.Collections.Hashtable, and else more properties |
| ClixmlElements.ReadsEnd | serialization/clixml.go:1767-1783 | at its end tag an object is on record under its id, unless it is such a hashtable |
| ClixmlRoundTrip.ReadsRef | serialization/clixml.go:1849-1873 | a Ref to a closed object reads as that object, to an open one it fails |
| ClixmlRoundTrip.ReadWrittenTypeNames | serialization/clixml.go:1666-1698 | TN and TNRef set the written names on the object and keep both sides' tables in agreement |
| ClixmlRoundTrip.ReadsEnum | serialization/clixml.go:709-761 | the element of an enum is read as an object with the enum's names, string and number |
| ClixmlReadBack.ReadsValue | serialization/clixml.go:1371-1457 | the element written for any value, in any context, is read as exactly its image, up to the end tag that a list or hashtable leaves; or it fails exactly for a back reference or excess depth |
| ClixmlReadBack.ReadsItems | serialization/clixml.go:1515-1539 | the list reader absorbs stray Obj end tags: every sequence of items is read without loss or merging |
| ClixmlReadBack.ReadsEntries | serialization/clixml.go:1541-1611 | the same for the entries of a hashtable |
| ClixmlReadBack.ReadsProperties | serialization/clixml.go:1812-1847 | the same for the properties of an object |
| ClixmlReadBack.ReadsListElement | serialization/clixml.go:1732-1741 | an Obj that holds a list returns it before its own end tag, which stays in front of what follows |
| ClixmlReadBack.ReadsDictElement | serialization/clixml.go:1714-1731 | the same for an Obj that holds a hashtable |
| ClixmlReadBack.ReadsObjectElement | serialization/clixml.go:1624-1783 | an object's element is read as a new object with its image, registered at the end tag |
| ClixmlDocument.DocumentRoundTrip | serialization/clixml.go:303-319 | Deserialize on a whole document: the image and exactly its objects, whatever the reader's tables held before; failure on back references or excess depth |
| ClixmlDocument.RawRoundTrip | serialization/clixml.go:349-357 | the same for SerializeRaw, whose single element is the root |
| ClixmlDocument.StaleTablesDoNotMatter | serialization/clixml.go:1298-1345 | a reader with tables left by earlier documents gives what a fresh one gives |
| ClixmlCycles.BackReferenceIff | serialization/clixml.go:396-413 | a Ref to an object still open is written if and only if the reachable objects form a cycle |
| ClixmlCycles.ReadsBackIff | serialization/clixml.go:1298-1345 | a fresh reader accepts a document if and only if the graph is acyclic and nested within the limit, and then gives the image |
| ClixmlInputs.SelfPointer | serialization/clixml.go:396-413 | a document no fresh reader accepts: an object whose property points to itself |
| ClixmlScan.AcceptedIff | serialization/clixml.go:1371-1375 | the same with depth as counted on the tokens: every value element in fewer Obj elements than the limit |
| ClixmlImage.WriteReadsAs | serialization/clixml.go:1371-1783 | the image of any value, whatever is in it: texts as the codec leaves them, keys decoded, the names on file, pointers to the addresses of their objects, and each enum an object that no other enum or object shares |
| ClixmlIsomorphism.HashtableKeptIff | serialization/clixml.go:1208-1223 | a hashtable comes back with all its keys, each with its own value, if and only if no key holds a complete escape |
| ClixmlLosses.HashtableReadBackIff | serialization/clixml.go:1541-1572 | the document of a hashtable is read as one with the decoded keys, which are those written if and only if none holds a complete escape |
| ClixmlIsomorphism.HashtableMerges | serialization/clixml.go:1541-1572 | keys that are decoded alike become one entry, with the value of the last of them in byte order |
| ClixmlInputs.KeysMerge | serialization/clixml.go:1208-1223 | a document on which this fails: the keys A and _x0041_ become one entry |
| ClixmlIsomorphism.IntactIsSame | serialization/clixml.go:1371-1783 | an intact value is the same in its image: clean texts, keys without escapes and enum names first on file suffice, in any context |
| ClixmlIsomorphism.SameIsIntact | serialization/clixml.go:1371-1783 | and nothing less does |
| ClixmlIsomorphism.ReadsBackIsomorphic | serialization/clixml.go:1298-1345 | an acyclic graph within the depth limit is read, and what is read is the graph again, in normal form and with the same sharing, if and only if every text survives the string codec, no hashtable key holds an escape and every list of type names is the first filed under its joined text |
| ClixmlIsomorphism.EnumsApart | serialization/clixml.go:709-761 | two enums at different places come back as two objects, neither of which stands for an object of the graph |
| ClixmlLosses.NothingLostIff | serialization/clixml.go:1092-1150 | of a reachable object exactly the named properties are read back, or else the named and listed members; nothing is lost if and only if all are named and, with properties, every member is hidden under a property of its key or, without, is listed; the wrapped value is kept only when it is nil |
| ClixmlInputs.MemberHidden | serialization/clixml.go:1624-1783 | a document on which a member is lost: there is a property under another key |
| ClixmlInputs.MemberUnlisted | serialization/clixml.go:1101-1107 | another: the order of the members does not list it |
| ClixmlInputs.PropertyUnnamed | serialization/clixml.go:1812-1847 | a document on which a property is lost: it has no name |
| ClixmlInputs.WrappedValueLost | serialization/clixml.go:1046-1160 | a document on which the wrapped value of an object is lost |
| ClixmlInputs.TextChanged | serialization/clixml_string.go:84-104 | a document on which a text changes: a byte that is not UTF-8, after a control character, is read as U+FFFD |
| ClixmlDocument.DocumentReads | serialization/clixml.go:1298-1345 | one document with any tables on both sides that agree: the image, and tables that agree again |
| ClixmlSession.SessionReads | serialization/clixml.go:303-319 | any number of documents from a serializer never reset to one reader: each is read as its image, with references into earlier documents, and the tables stay in agreement; or one fails exactly for a back reference or excess depth |
| ClixmlSession.SessionReadsIff | serialization/clixml.go:1298-1345 | a new reader takes the documents of a new serializer to the last if and only if no cycle is reachable from their values and none is nested too deep |
| ClixmlSession.SessionIsomorphic | serialization/clixml.go:1298-1345 | the values then arrive, with the sharing within and between documents, if and only if every text survives the codec, no key holds an escape and every list of type names is the first filed under its joined text in the whole session |
| ClixmlSession.SharedBetweenDocuments | serialization/clixml.go:396-413 | an object that two documents hold is read as one object, whatever is in it |
| ClixmlTransfer.Transfer | serialization/clixml.go:303-319 | the serializer object and the deserializer object together: a value arrives if and only if it is acyclic and not too deep, and arrives as itself if and only if it is intact |
| Clixml.SortedKeysAscend | serialization/clixml.go:1138-1145 | keys are written in strictly ascending byte order, so none twice |
| ClixmlSerializer.Serializer.constructor | serialization/clixml.go:245-258 | a serializer starts with empty tables |
| ClixmlSerializer.Serializer.Reset | serialization/clixml.go:269-281 | Reset forgets the buffer, the counter and both tables |
| ClixmlSerializer.Serializer.Serialize | serialization/clixml.go:303-323 | clears the buffer but not the tables, and returns the wrapped document or the error |
| ClixmlSerializer.Serializer.SerializeRaw | serialization/clixml.go:349-357 | the same without the wrapper |
| ClixmlSerializer.Serializer.SerializeValueWithName | serialization/clixml.go:396-509 | appends exactly the specified tokens for every kind of value and leaves exactly the specified tables |
| ClixmlSerializer.Serializer.SerializeEnum | serialization/clixml.go:709-761 | the element of an enum |
| ClixmlSerializer.Serializer.SerializeList | serialization/clixml.go:763-867 | the element of an array or typed list |
| ClixmlSerializer.Serializer.SerializeItems | serialization/clixml.go:803-810 | the loop over its items, stopped by the first error |
| ClixmlSerializer.Serializer.SerializeHashtable | serialization/clixml.go:1163-1230 | the element of a hashtable |
| ClixmlSerializer.Serializer.SerializeEntries | serialization/clixml.go:1208-1223 | the loop over its entries in key order |
| ClixmlSerializer.Serializer.SerializePSObject | serialization/clixml.go:1046-1160 | the element of an object met for the first time; on an error the tokens and tables so far |
| ClixmlSerializer.Serializer.SerializeHead | serialization/clixml.go:1048-1098 | its number, type names and string |
| ClixmlSerializer.Serializer.SerializeProperties | serialization/clixml.go:1117-1126 | the loop over members or properties, nil for a listed key that is missing |
| ClixmlSerializer.Serializer.WriteTypeNames | serialization/clixml.go:1064-1087 | a TNRef for names already numbered, otherwise a TN under the next id |
| ClixmlDeserializer.Deserializer.constructor | serialization/clixml.go:1264-1270 | a deserializer starts with empty tables at depth 0 |
| ClixmlDeserializer.Deserializer.Deserialize | serialization/clixml.go:1298-1345 | for any tokens: the specified result and tables; the depth counter is back at its entry value and never passed the limit |
| ClixmlDeserializer.Deserializer.DeserializeElement | serialization/clixml.go:1371-1513 | the same for one element |
| ClixmlDeserializer.Deserializer.DeserializeList | serialization/clixml.go:1515-1539 | the same for a list |
| ClixmlDeserializer.Deserializer.DeserializeDict | serialization/clixml.go:1541-1572 | the same for a hashtable |
| ClixmlDeserializer.Deserializer.DeserializeDictEntry | serialization/clixml.go:1574-1617 | the same for an entry; a key that is not a string leaves the key empty |
| ClixmlDeserializer.Deserializer.DeserializeObject | serialization/clixml.go:1624-1783 | the same for an object |
| ClixmlDeserializer.Deserializer.DeserializePart | serialization/clixml.go:1707-1764 | its properties, its list or hashtable, or an inner value |
| ClixmlDeserializer.Deserializer.DeserializeHeading | serialization/clixml.go:1666-1705 | its type names and string |
| ClixmlDeserializer.Deserializer.DeserializeProperties | serialization/clixml.go:1812-1847 | the same for a property bag |
| ClixmlDeserializer.Deserializer.DeserializeTypeNames | serialization/clixml.go:1785-1810 | the names up to the end of TN |
| ClixmlDeserializer.Deserializer.DeserializeRef | serialization/clixml.go:1849-1873 | an unknown, missing or unreadable id is an error |
| Fragments.Encode | fragments/fragments.go:98-127 | the fragment's bytes field by field in a buffer; an error above 32-bit length |
| Fragments.Decode | fragments/fragments.go:143-176 | needs a header and the announced number of bytes; the bound of its slice wraps at 32 bits, and slicing then panics |
| Fragments.DecodeOutcomes | fragments/fragments.go:143-176 | for any bytes: the fragment that stands there, an error if and only if none is whole, a panic if and only if one is whole and announces more than 2^32 - 22 bytes |
| Fragments.DecodeEncoded | fragments/fragments.go:98-176 | an encoded fragment in front of anything decodes to itself if and only if its data is at most 2^32 - 22 bytes; the encoder allows 21 more, and decoding those panics |
| Fragments.LongFragmentPanics | fragments/fragments.go:173 | a fragment that is encoded and whose bytes make the decoder panic |
| Fragments.EncodedDecode | fragments/fragments.go:98-176 | a decoded fragment encodes to the bytes it came from if and only if no reserved flag was set |
| Fragments.EncodedInjective | fragments/fragments.go:98-127 | different fragments have different bytes |
| Fragments.Fragmenter.FragmentData | fragments/fragments.go:230-278 | the next id, wrapping at 64 bits, and the data split under it, or a panic |
| Fragments.Fragmenter.SetObjectId | fragments/fragments.go:225-227 | sets the counter and nothing else |
| Fragments.SplitIsTheFragmentation | fragments/fragments.go:230-278 | the fragments are the only list with these ids, flags and sizes whose data joins to the message |
| Fragments.SplitConcat | fragments/fragments.go:230-278 | their data in order is the message |
| Fragments.PanicsIff | fragments/fragments.go:234-241 | splitting panics if and only if there is neither room nor data, or the capacity sum overflows to a negative quotient; for the 21 lowest sizes the room itself has wrapped around |
| Fragments.LowestSize | fragments/fragments.go:234-241 | the lowest size of all: no data and 50 bytes are split, 30 bytes make it panic |
| Assembly.Assembler.Add | fragments/fragments.go:320-381 | the outcome and the pending messages of Add, for any fragment |
| Assembly.JoinLoop | fragments/fragments.go:356-369 | the loop that joins the pieces in order |
| Assembly.AddKeepsLimits | fragments/fragments.go:320-381 | any fragment, accepted or refused, keeps the pending count and each received count within the limits and true, and changes no other message |
| Assembly.FeedKeepsLimits | fragments/fragments.go:320-381 | so in every run from an empty assembler |
| Assembly.CompleteHasAllIff | fragments/fragments.go:353-378 | a message that completes has all its fragments if and only if none beyond the last id was stored |
| Assembly.CompletesWithoutFirst | fragments/fragments.go:343-378 | it need not: ids 5 and then a last 1 complete |
| Assembly.AddTracks | fragments/fragments.go:320-381 | one fragment of a real message: refused as a copy with no change, or stored, or completing it, as due |
| Assembly.FeedTracks | fragments/fragments.go:320-381 | fragments of any messages in any order, interleaved and with copies before completion: each outcome is the one due, and what is pending is what has arrived |
| Assembly.DeliveredOnce | fragments/fragments.go:353-378 | a message is delivered with its exact bytes by exactly one arrival, the last missing fragment |
| Assembly.NothingPending | fragments/fragments.go:373-376 | when all fragments have arrived nothing is pending |
| Messages.Encode | messages/messages.go:190-211 | the 40-byte header, little-endian, and the data, written into a buffer |
| Messages.Decode | messages/messages.go:216-249 | accepts anything of at least 40 bytes |
| Messages.DecodeEncoded | messages/messages.go:190-249 | an encoded message decodes to itself |
| Messages.EncodedDecode | messages/messages.go:190-249 | every byte string of at least 40 bytes is the encoding of the message it decodes to |
| Messages.SwapGuid | messages/messages.go:255-296 | the index assignments give the first three GUID fields (section 4.1.2 of RFC 4122) least significant byte first |
| Messages.NetGuidTwice | messages/messages.go:255-296 | the change of layout undoes itself |
| Wire.Transport.ReadFull | runspace/runspace.go:1695-1720 | exactly the bytes wanted or an error, however the reader cuts them |
| Wire.Receiver.ReceiveMessage | runspace/runspace.go:1687-1745 | the receive loop: its result, the bytes left and the pending messages, for any stream |
| Wire.Sender.SendMessage | runspace/runspace.go:1542-1599 | one write for each fragment, holding its bytes, in order, on the pipeline's channel when the transport keeps them apart; it stops before a fragment too long to encode |
| Wire.TooLongIff | runspace/runspace.go:1705-1720 | a fragment that announces more than 10485760 bytes is refused, and a shorter one never for its length |
| Wire.ReceiveSent | runspace/runspace.go:1687-1745 | one sent message is received as itself and leaves the assembler as it was |
| Wire.StreamRoundTrip | runspace/runspace.go:1542-1745 | any list of messages is received as sent, in order, with nothing left pending |
| Wire.SmallMessagesFit | runspace/runspace.go:1585-1599 | what can be sent: every message within the allowed number of fragments of allowed size |
| Wire.ProcessConnectResponse | runspace/runspace.go:752-809 | the loop over a connect response, for any bytes: its error or its panic, the pending messages and what completed |
| Wire.ProcessIs | runspace/runspace.go:764-806 | for any bytes: it adds the fragments that stand there by the lengths they announce, up to the first that is refused or makes decoding panic, and then fails on a piece that is not whole, unless that is shorter than a header |
| Wire.ProcessPanicsIff | fragments/fragments.go:173 | it panics if and only if a whole fragment announces more than 2^32 - 22 bytes and none before it is refused |
| Wire.ConnectPanics | runspace/runspace.go:781 | bytes on which it does |
| Wire.ReceiveNeverPanics | runspace/runspace.go:1707-1710 | the receive loop never does, nor fails to decode a fragment, because of its limit on the announced length |
| Wire.ConnectLikeStream | runspace/runspace.go:752-809 | on whole short fragments of decodable messages it puts the assembler through the same states and completes the same messages as the stream |
| Wire.ProcessDrives | runspace/runspace.go:764-806 | on encoded fragments it adds exactly these, up to the first that is refused or makes decoding panic, and ignores a trailing piece of a header |
| Wire.ReceiveAllDrives | runspace/runspace.go:1687-1745 | so does the receive loop, called until it fails |
| Interleaving.MixedStream | runspace/runspace.go:1687-1745 | fragments of any messages mixed in any order on one stream: the receive loop returns each complete message once, in the order of their last fragments, then meets the end of the stream, with only the others pending |
| Interleaving.CompletedOnce | fragments/fragments.go:353-378 | the messages completed are those with all their fragments, each once |
| Handshake.Pool.SetMinRunspaces | runspace/runspace.go:376-388 | only before opening, and only to at least 1 |
| Handshake.Pool.SetMaxRunspaces | runspace/runspace.go:392-404 | the same for the maximum |
| Handshake.Pool.ReceiveWithHostCallbacks | runspace/runspace.go:1780-1800 | host calls are answered once each, in order, up to the first other message |
| Handshake.Pool.ReceiveSessionCapability | runspace/runspace.go:940-974 | succeeds if and only if the first other message is a capability of version 2.x, and stores it |
| Handshake.Pool.WaitForOpened | runspace/runspace.go:1150-1203 | succeeds if and only if the first message that is not preliminary says Opened, and stores the counts |
| Handshake.Pool.Negotiate | runspace/runspace.go:530-562 | sends the capability, then replies, then the init message, then replies; succeeds exactly on the handshake's language, otherwise Broken |
| Handshake.Pool.Open | runspace/runspace.go:510-579 | from BeforeOpen: Opened with counts of at least 1 if and only if the messages begin as they must, else Broken; it takes messages up to the first that is no answerable host call, and, only when that is the capability, sends the init message and takes more up to the first that is not preliminary; from other states an error and no change |
| Handshake.CapabilityParsed | runspace/runspace.go:1810-1845 | the parser accepts exactly the capabilities whose first object says a protocolversion of a 2 and more |
| Handshake.StateParsed | runspace/runspace.go:1855-1912 | the parser finds Opened exactly where the number 2 stands alone, under RunspaceState, or else under RunspacePoolState, or else under the number met first |
| Handshake.CountsParsed | runspace/runspace.go:1884-1908 | MinRunspaces and MaxRunspaces, from the second object or else the first, become the minimum and the maximum when positive, and the pool keeps its own otherwise |
| ServerDocuments.CapabilityIff | runspace/runspace.go:940-974 | a capability document is compatible if and only if the last text under protocolversion is a 2 and more |
| ServerDocuments.VersionTaken | runspace/runspace.go:1829-1832 | the text of a Version element is that protocol version as it stands |
| ServerDocuments.OpenedDocument | runspace/runspace.go:1855-1912 | the document of a pool state says Opened if and only if its number is 2, and its two counts are the minimum and the maximum |
| Handshake.OpensOnce | runspace/runspace.go:530-562 | a list of messages opens the pool in at most one way |
| Handshake.OpensByPrefix | runspace/runspace.go:530-562 | whatever follows the deciding message makes no difference |
| OutOfProc.Transport.SendDataWithStream | outofproc/transport.go:96-126 | appends the line of a Data packet |
| OutOfProc.Transport.SendData | outofproc/transport.go:91-93 | on the default stream |
| OutOfProc.Transport.SendPlain | outofproc/transport.go:129-229 | appends the line of any of the other packets |
| OutOfProc.Transport.ReceivePacket | outofproc/transport.go:233-266 | the packet or error of the next line with an element, and the input left |
| OutOfProc.DataLineIs | outofproc/transport.go:96-126 | the line of a Data packet, in letters |
| OutOfProc.PlainLineIs | outofproc/transport.go:129-229 | the line of any other packet, in letters |
| OutOfProc.ParseIff | outofproc/transport.go:270-378 | any text parses as a packet if and only if it says so: the name up to the first delimiter, the first quoted PSGuid or else the null GUID, the first quoted Stream or else Default, and for Data the base64 text up to the last end tag |
| Text.FrontIff | outofproc/transport.go:240 | what trimming takes from the left: the runes that Unicode calls white space, in UTF-8 |
| Text.BackIff | outofproc/transport.go:240 | and from the right |
| Text.BomDropped | outofproc/transport.go:246 | a byte order mark in front is dropped, once |
| OutOfProc.ParseLine | outofproc/transport.go:270-378 | a printed line parses as its packet |
| OutOfProc.ReceiveAfterJunk | outofproc/transport.go:233-266 | lines, and the start of a line, without a < in front of a packet are passed over |
| OutOfProc.PacketsRoundTrip | outofproc/transport.go:96-378 | any sequence of packets is received as printed, in order, with anything free of < in between |
| Adapter.Adapter.LoopStep | outofproc/adapter.go:98-187 | one undivided step of the background loop, and the acknowledgements it prints |
| Adapter.Adapter.TakePacket | outofproc/adapter.go:120-186 | receives a packet, acknowledges Data, Close and Signal, and holds the data until it is queued |
| Adapter.Adapter.Read | outofproc/adapter.go:191-252 | takes bytes off the first queued buffer; reports an error or the end only when the queue is empty |
| Adapter.EveryRunSound | outofproc/adapter.go:98-252 | in every interleaving the bytes returned and those queued are the data received, in order, each packet is acknowledged once under its GUID, and the packets are those of the input |
| Adapter.EndOnlyWhenDrained | outofproc/adapter.go:236-251 | an error or the end is reported only after everything received has been returned; the end only after Close |
| Adapter.DrainedMeansDelivered | outofproc/adapter.go:98-252 | once a Read meets the end of the input, all printed packets were received and acknowledged and exactly their data returned |
| Adapter.LoopEnds | outofproc/adapter.go:98-187 | without a Close, 2n + 2 steps of the loop on n bytes of input bring it to its end with an error of the transport, whatever happens in between |
| Adapter.EverythingArrives | outofproc/adapter.go:98-252 | and then as many Reads as there are packets and bytes of data empty the queue: the next Read reports the end of the input, all packets acknowledged and exactly their data returned |
| EndToEnd.MessagesArrive | runspace/runspace.go:1542-1745 | messages sent as fragments in Data packets and read through the adapter are received exactly, whatever the interleaving and the buffer sizes |
| EndToEnd.MessagesGuaranteed | outofproc/adapter.go:98-252 | and they are received, without a Close, after so many steps of the adapter's loop and then as many Reads as there are fragments and bytes |
| Pipeline.PipelineObject.constructor | pipeline/pipeline.go:149-215 | a pipeline starts NotStarted, a recovered one Running, with all channels open |
| Pipeline.PipelineObject.MoveTo | pipeline/pipeline.go:803-835 | transition: refused from a terminal state; a terminal one closes every channel unless the done channel is closed |
| Pipeline.PipelineObject.HandleMessage | pipeline/pipeline.go:620-773 | stream messages are queued, refused when full, or panic when the stream has been closed; state messages change the state as their number says |
| Pipeline.PipelineObject.Invoke | pipeline/pipeline.go:432-468 | only from NotStarted; fails when the command cannot be built or sent |
| Pipeline.PipelineObject.Stop | pipeline/pipeline.go:472-488 | only from Running |
| Pipeline.PipelineObject.Fail | pipeline/pipeline.go:840-842 | a transition to Failed with the error |
| Pipeline.PipelineObject.Cancel | pipeline/pipeline.go:427-429 | cancels and changes nothing else |
| Pipeline.PipelineObject.Receive | pipeline/pipeline.go:536-569 | a consumer takes the oldest message of a stream |
| Pipeline.StreamOfType | pipeline/pipeline.go:622-681 | each stream has one message type, by its number, and no other type goes to it |
| Pipeline.StateRead | pipeline/pipeline.go:683-732 | the state is the bare number of the first object, or the number under PipelineState in its members or else its properties, with what stands under ExceptionAsErrorRecord as the cause |
| ServerDocuments.PipelineDocument | pipeline/pipeline.go:683-732 | the document of a pipeline state is read as its number |
| Pipeline.ApplyKeepsConsistent | pipeline/pipeline.go:803-835 | every step keeps the channels closed together, at most once, and closed in a terminal state |
| Pipeline.EveryRunConsistent | pipeline/pipeline.go:803-842 | so in every interleaving of server messages, Invoke, Stop, failures, cancellation and consumers |
| Pipeline.EndedKeptIff | pipeline/pipeline.go:736-747 | an ended pipeline keeps its state and error through a step if and only if the step is not a raw state number 0 to 2 |
| Pipeline.ServerNumberTaken | pipeline/pipeline.go:734-768 | a state number becomes the pipeline's state, closing it and leaving an error just when the number says so; numbers beyond 6 change nothing |
| Pipeline.EndedStays | pipeline/pipeline.go:803-835 | so through any run without such numbers |
| Pipeline.FailureForgotten | pipeline/pipeline.go:736-747 | with one, a failed pipeline can end Completed without an error, still closed once |
| Pipeline.StreamsInOrder | pipeline/pipeline.go:585-669 | each stream hands on exactly the messages it accepted, in order |
| Pipeline.ClosedStreamsStay | pipeline/pipeline.go:803-835 | once closed, a stream hands on nothing but what it had accepted before |
| Pipeline.PoolRegistry.Cleanup | runspace/runspace.go:1493-1539 | only the first call acts: with an error every registered pipeline fails and is closed, without one it is cancelled, and the pool's done channel closes once |
| Pipeline.EndAll | runspace/runspace.go:1524-1533 | the loop over the registered pipelines |

## Left out

- XML lexing and escaping (encoding/xml): documents are tokens with exact text; an element's two attributes N and RefId are the only ones. Names with XML special characters, and characters XML cannot carry, are not modelled. Among these are ill-formed bytes in a text that needed no encoding and ill-formed or control bytes in a hashtable key, which is never encoded: xml.EscapeText writes U+FFFD for them. The reader is total on token sequences no lexer would produce.
- Floats, times, versions, SecureString, generic maps with keys that are not strings, PSObjects passed by value, and the converters for commands and records: field copying, or foreign cryptography.
- SerializeMultipleRaw: several values in one buffer, each as SerializeRaw has it.
- Guid.ParseFormat: the other spellings that uuid.Parse accepts (braces, a urn prefix, no hyphens) are not modelled; they are refused here.
- Fragments.Fragmenter.FragmentData: data is taken to be shorter than 2^62 bytes, more than a Go slice holds, so that offsets do not overflow; the capacity computation does. Running out of memory is not modelled.
- ClixmlDocument.DocumentRoundTrip: the number of elements is taken to fit a 64-bit integer, as the reader parses ids.
- ClixmlSession.SessionIsomorphic: the number of elements is taken to fit a 64-bit integer, as the reader parses ids, and the objects are taken not to change between the documents.
- ClixmlTransfer.Transfer: the number of elements is taken to fit a 64-bit integer, as the reader parses ids.
- Pools of buffers and objects, the Unsafe variants, logging, security events, environment variables: no protocol meaning.
- Time: a timeout or a cancelled context is a step that changes nothing and may happen at any point; back pressure is the refusal of a message when a stream is full.
- The host: an answer to each call that can be decoded, given as a function; running calls in the background during dispatch, and the limit on them, are not modelled.
- Failures of the transport to send: a send succeeds, except in Invoke and Stop where its outcome is a parameter. A failing receive is the end of the incoming messages.
- Pipeline.PipelineObject.HandleMessage: a panic is an outcome that leaves the pipeline as it was; what it does to the rest of the program is not modelled, and a sender blocked on a full stream is not woken by its closing.
- Handshake.Pool.Open: incoming messages are those the receive loop returns one after another; reading the XML in them is a function given from outside, and the text of the messages sent is not modelled.
- Connect, Disconnect, the dispatch loop, availability and command metadata: plumbing around the parts that are modelled.
