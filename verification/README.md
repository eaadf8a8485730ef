# AMF3 encoder and decoder

This project models the AMF3 half of the server: the `serialize` and `deserialize` functions
of the item classes, the `SerializationContext` with its three reference tables (strings,
traits, objects), `Serializer`, `Deserializer` and the pointers between decoded items. The
format is that of Adobe's "AMF 3 Specification" (section 1.3.1 integers, 1.3.2 strings, 3.11
arrays, 3.12 objects, 3.15 vectors, 3.16 dictionaries).

Encoder and decoder are two separate traversals that each rebuild the same tables, one keyed
by deep equality, the other by position and pointer. The main results are:

- **Round trip** (`RoundTrip.RoundTripItem`, `Stream.StreamRoundTrip`, `Session.Exchange`).
  For every well-formed item, from every pair of corresponding contexts and in front of any
  further bytes, decoding the encoder's output yields the canonical form, uses exactly the
  bytes written and leaves corresponding contexts, provided every reference written fits its
  single byte (always so within 64 strings, 64 objects and 32 traits).
- **Format** (`Written`, `Accepted.AcceptedIff`, `DictionaryFormat`). Encoder and decoder are
  each tied to one language of tokens, given in the numbers and the order of the
  specification. What is written for every class of item is spelt out token by token, and an
  input is accepted as an item exactly if it holds a sentence for it or a reference to it:
  for objects, the j-th value on the wire belongs to the j-th attribute whatever the order
  of the names, and under a name given twice the last value stays. The variable-length
  integers, the order of names and the bits of doubles are tied to definitions of their own.
- **Pointers** (`Deserialize.Deserializer.Deserialize`, `Heap.UnfoldsIff`, `Session.Exchange`).
  The decoder that registers a container first and fills it through its pointer succeeds
  exactly when the value decoder does, on every input. What it returns stands for the decoded
  value node by node, and the graph unfolds to exactly that value once every pointer back into
  an open container is replaced by what the container has become. Of a stream of well-formed
  items, two containers sent at the top level arrive as one node exactly when they compared
  equal. At any depth, the store they arrive in is acyclic, and no two containers in it are
  alike exactly if no two of the items sent, parts included, differ only in what is not
  serialized (`Store.OneEachIff`).
- **Normalisation** (`Normalise.AcceptThenNormalise`). Whatever bytes are accepted, in any
  place of a stream: if the graph decoded is acyclic and holds no doubles, what it unfolds to
  is well-formed, and re-encoding normalises it. That includes graphs whose decoded value holds
  a pointer into an open container that was overwritten later (`Overwrite.LoopWithoutCycle`).
- **Equality** (`Equality`, `Sharing`, `Congruence`, `Hashing`). The deduplicating equality,
  pointer shortcut included, holds exactly if what it sees of two items is identical
  (`Equality.EqIffSeen`), so it is an equivalence on all items; it never holds between an item
  and a part of it; whether a comparison throws (that of two separate externalizable objects that
  are equal so far does) is the same for equal items and from either side. A copy that shares
  no node with the original equals it exactly without a NaN and without externalizable objects.
  Equal items are serialized alike, and to the same bytes for all equals of an item exactly if
  no floating-point zero is written for it.
- **Exceptions** (`Exceptions.StreamThrowsIff`, `Session.Serializer.Put`). A stream throws
  exactly if one of its items cannot be written at all (over-long data, a missing sealed value,
  an externalizable object, a pointer into an open container) or two of the objects looked up
  throw in comparison. The condition does not mention the tables.
- **Framing, compression, limits** (`Framing`, `Delimiting`, `Compression`, `Limits`). Every
  encoding delimits itself, doubles and wide integers included, if no name that would end a
  list is empty and every object has fewer than 2^24 attributes; an array without dense items
  or a dynamic object whose members are like that can be cut short exactly if it has an empty
  name of its own. The tables never cost a byte. The points where the code stops being faithful
  are given as if-and-only-if statements.
- **Dictionaries** (`Dictionary.MixedStreamTrip`). In any stream of items and top-level
  dictionaries every element arrives, dictionaries in any enumeration order, equal ones by
  reference: those are exactly the ones with the same entries in any order.

## Layout

`Words`, `U29`, `Names`, `Items` hold the data. `Grammar` is the format as a language.
`Encoder` and `Decoder` are the specification: what `serialize` and `deserialize` write, read
and leave in the tables. `Invariant`, `Equality`, `Sharing`, `Canonical`, `Lockstep`,
`RoundTrip`, `Framing`, `Delimiting`, `Stream`, `Exceptions`, `Written`, `Accepted`, `Doubles`,
`Compression`, `Congruence`, `Hashing`, `Normalise`, `Limits`, `Overwrite`, `Store`,
`Dictionary` and `DictionaryFormat` prove properties of it. `SerializationContext`,
`Serialize`, `Heap`, `Deserialize`, `Session` and `AmfObject` are the code in its own
imperative form (mutable tables, growing buffers, a moving cursor, containers filled in place),
proved against the specification.

Conventions of the model:

- A `std::map` is a pair of sequences with strictly ascending names, a `std::set` of strings
  an ascending sequence; the order is that of `std::string` with bytes compared unsigned.
- `AmfXmlDocument`, `AmfXml` and `AmfByteArray` are one constructor with a kind, and so are
  `AmfVector<int>` and `AmfVector<unsigned int>`, whose elements are their 32 bits.
- `Canon(x)` is what a trip over the wire leaves of `x`: attributes sorted and unique (the
  encoder goes through a `std::set`), the sealed properties they name, and no dynamic
  properties on a non-dynamic object.
- `Loop(i)` is a decoded pointer to object table entry `i` taken while that container was
  still open. The value encoder throws on it. In the source it is the pointer itself: if
  the graph is cyclic, serializing recurses without end; if a later entry of the same name
  overwrote what closed the cycle, the graph is a tree, and that tree is what is serialized.
- `Out.exact` says that every reference written had an index below 64 (strings, objects) or
  below 32 (traits). It is bookkeeping of the model, not a value of the source.
- `Policy` chooses between the tables as they are and the same encoder with every lookup
  missing, which the compression results compare.
- Doubles are the eight bytes they occupy in memory on a little-endian build, and the node
  they are: doubles that agree in both are one object reached through shared pointers. Objects
  carry their node too; it only matters for externalizable ones. That is all that sharing can
  change about equality, exceptions included, which `Sharing.PointerEquality` proves. A decoded
  double is the node made at its position in the input.
- No externalizer and no external deserializer are installed, so serializing an externalizable
  object throws, decoding one throws, and so does comparing two of them that are separate
  but equal up to the call of the externalizer.
- The dictionaries in an object table stand beside the context, each with its entry.
- Exceptions are `Throws`, `Bad` or `None`; negative decoded lengths are such an exception
  (`std::length_error` from the range constructors and `reserve`).

Where the code and the comments in it disagree, the model follows the code: references are
one byte (the specification has a full U29), and `network_bytes` writes a double unswapped.

## Model

| member | source | states |
|---|---|---|
| U29.DeserializeValue | AMF3/src/amfinteger.cpp:70-97 | the loop with its counter, its 32-bit accumulator and the shifts that extend the sign computes the specified reading |
| U29.RoundTrip | AMF3/src/amfinteger.cpp:13-97 | for every integer in [-2^28, 2^28) and whatever surrounds it, reading what was written gives it back and stops right after it |
| U29.NormalForm | AMF3/src/amfinteger.cpp:21-97 | every reading is in range, rewriting it takes no more bytes than were read, and as many exactly when the bytes were the writer's own |
| U29.ReadIff | AMF3/src/amfinteger.cpp:70-97 | an integer is read exactly if the bytes passed spell it: seven bits to a byte under a continuation bit, eight in a fourth, two's complement in 29 bits |
| U29.WriteShortest | AMF3/src/amfinteger.cpp:21-48 | what is written spells the integer, and nothing shorter does |
| Serialize.SerializeInteger | AMF3/src/amfinteger.cpp:13-48 | the branches of the integer writer give the specified bytes: 4 and bytes that spell the integer, or 5 and the double with its sign and magnitude to the last bit |
| Serialize.AsLength | AMF3/src/amfinteger.cpp:50-61 | throws exactly from 2^27 on, otherwise the marker and bytes that spell the length times two plus one |
| Limits.LengthIsNoReference | AMF3/src/amfinteger.cpp:50-61 | a length header always reads back as that length, non-negative and with the low bit set |
| Limits.ReferenceLimit | AMF3/src/amfarray.cpp:24-27 | the byte of a string or object reference reads back as that reference, whatever follows, exactly for indices below 64 |
| Limits.TraitsReferenceLimit | AMF3/src/amfobject.cpp:62-65 | traits already in the table come back by their reference exactly when they are among the first 32, if no earlier ones differ from them only in the order of their attributes |
| Limits.StringReferenceLimit | AMF3/src/amfstring.cpp:24-31 | a string already in the table comes back exactly when it is among the first 64 |
| Limits.ObjectReferenceLimit | AMF3/include/serializationcontext.hpp:66-76 | an object already in the table is written without an exception, and comes back exactly when it is among the first 64, if no earlier one has its canonical form |
| Limits.StringStreamIff | AMF3/src/amfstring.cpp:24-31 | a stream of strings comes back if and only if every non-empty string that is sent again is among the first 64 distinct ones |
| Doubles.DoubleWritten | AMF3/include/amf.hpp:43-48 | a double is written as 5 and its bytes as they lie in memory, first byte first |
| Doubles.DoubleRead | AMF3/src/amfdouble.cpp:18-31 | after a 5, eight bytes are read last byte first; with fewer the input is rejected |
| Doubles.DoubleRoundTripIff | AMF3/include/amf.hpp:43-60 | so a double comes back exactly when its bytes read the same both ways |
| Doubles.OneIsLost | AMF3/src/amfdouble.cpp:10-31 | the double 1.0 does not come back |
| Limits.IntegerRoundTripIff | AMF3/src/amfinteger.cpp:13-19 | an int comes back as an integer exactly when it is in the 29-bit range |
| Doubles.IntegerWritten | AMF3/src/amfinteger.cpp:14-48 | in the 29-bit range an int is written as 4 and bytes that spell it, outside as 5 and eight bytes whose sign, exponent and significand give exactly the int |
| Doubles.DoubleEqIff | AMF3/src/amfdouble.cpp:5-8 | two doubles compare equal exactly if they are one object, or neither is a NaN and they are both zero or agree in sign, exponent and fraction |
| Names.LessIff | AMF3/src/amfarray.cpp:33-41 | strings are ordered by the first byte that differs, unsigned, or else by length |
| Names.Insert | AMF3/include/amfobjecttraits.hpp:37-39 | inserting keeps the names ascending and adds exactly the one name |
| Names.Unique | AMF3/include/amfobjecttraits.hpp:37-39 | the unique attributes are ascending and the same names |
| Names.UniqueOfAscending | AMF3/include/amfobjecttraits.hpp:37-39 | a list already ascending is left as it is |
| Names.AscendingDetermined | AMF3/include/amfobjecttraits.hpp:37-39 | the order attributes were added in does not matter: equal name sets give the same list |
| Names.FindPut | AMF3/include/amfobject.hpp:25-34 | assigning under a name changes what is found there and nothing else |
| Names.PutAtEnd | AMF3/src/amfarray.cpp:71-78 | entries that arrive in order are appended |
| AmfObjects.AmfObject.constructor | AMF3/include/amfobject.hpp:18-20 | a new object is in step and empty |
| AmfObjects.AmfObject.AddAttribute | AMF3/include/amfobjecttraits.hpp:27-35 | an attribute is appended unless it is there already |
| AmfObjects.AmfObject.AddSealedProperty | AMF3/include/amfobject.hpp:25-29 | the property reads back, the others are untouched, and attributes and sealed properties stay in step if they were |
| AmfObjects.AmfObject.AddDynamicProperty | AMF3/include/amfobject.hpp:31-34 | only the dynamic property of that name changes |
| AmfObjects.AmfObject.GetSealedProperty | AMF3/include/amfobject.hpp:36-42 | throws without the attribute or without its value; on an object in step the property is there exactly when its name is an attribute |
| AmfObjects.AmfObject.InStepWellFormed | AMF3/src/amfobject.cpp:103-107 | an object kept in step never misses a sealed value when it is serialized |
| Equality.EqIffSeen | AMF3/src/amfobject.cpp:10-34 | two items compare equal exactly if they are identical but for the node of a double that is no NaN, the sign of a zero, the dynamic properties of a non-dynamic object and the node of an object that is not externalizable |
| Equality.EqReflexive | AMF3/include/amfitemptr.hpp:41-43 | equality is reflexive on all items, those that hold a NaN included, because what is compared shares its nodes |
| Sharing.PointerEquality | AMF3/include/amfitemptr.hpp:41-43 | in every acyclic graph, comparing two pointers with the shortcut for identical ones at every level comes to what comparing what they unfold to comes to: equal, different or an exception |
| Sharing.AcyclicUnfolds | AMF3/include/amfitemptr.hpp:41-43 | every pointer into an acyclic graph unfolds |
| Sharing.DeepCopyEqualIff | AMF3/include/amfitemptr.hpp:41-43 | a copy that shares no node with the original compares equal to it exactly when there is no NaN and no externalizable object in what is compared |
| Sharing.SentAgain | AMF3/include/serializationcontext.hpp:37-40 | an item sent before is sent as a reference to the same entry from then on, with a NaN in it too: the copy in the table shares its nodes |
| Equality.EqSymmetric | AMF3/src/amfobject.cpp:10-34 | equality is symmetric on all items, where it does not throw |
| Equality.RaisesSymmetric | AMF3/src/amfobject.cpp:26-31 | whether comparing two items throws does not depend on the side |
| Equality.RaisesAlike | AMF3/src/amfobject.cpp:26-31 | items throw in comparison if items equal to them do |
| Equality.RaisesNotEq | AMF3/src/amfobject.cpp:26-31 | no two items both compare equal and throw |
| Equality.NoExternalNeverRaises | AMF3/src/amfobject.cpp:26-31 | an item without externalizable objects in what is compared never throws in comparison, whatever it is compared with |
| Equality.EqTransitive | AMF3/include/amfitemptr.hpp:41-43 | equality is transitive on all items |
| Equality.EqDepth | AMF3/include/serializationcontext.hpp:66-76 | equal items are nested equally deep |
| Equality.NeverEqualToAPart | AMF3/src/amfobject.cpp:47-50 | no part of an item, however deep, compares equal to the whole |
| Equality.EqCanon | AMF3/src/amfarray.cpp:10-13 | items that compare equal have the same canonical form, so a reference loses nothing |
| Equality.CanonIdempotent | AMF3/src/amfobject.cpp:58-60 | canonical forms are fixed points |
| Canonical.CanonWellFormed | AMF3/src/amfobject.cpp:58-60 | the canonical form of a well-formed item is well-formed |
| Canonical.CanonEqIff | AMF3/src/amfobject.cpp:10-34 | on canonical forms the equality is identity |
| Encoder.Encode | AMF3/include/serializationcontext.hpp:19-50 | serializing any item only appends to the tables, and all references fit while the tables are small |
| Grammar.Letter | AMF3/include/amfitem.hpp:10-29 | the marker of every class, in numbers |
| Written.SimpleWritten | AMF3/include/amfbool.hpp:18-20 | undefined, null, booleans, integers, doubles and strings, token by token |
| Written.StringWritten | AMF3/src/amfstring.cpp:24-45 | 1 for the empty string, one byte for the first match in the table, else length and bytes and an entry, or an exception from 2^27 bytes on |
| Written.KnownTraitsWritten | AMF3/src/amfobject.cpp:54-65 | traits in the table are the byte of their first match, after the class name was serialized in vain |
| Written.NewTraitsWritten | AMF3/src/amfobject.cpp:67-93 | other traits are sixteen times the number of distinct attributes, the dynamic bit and 3, the class name and the attributes in ascending order |
| Written.DataWritten | AMF3/src/amfbytearray.cpp:13-25 | byte arrays and XML are marker, length and bytes, after an entry in the table |
| Written.NumbersWritten | AMF3/src/amfvector.cpp:16-40 | integer vectors are marker, length, fixed flag and four bytes to an element, most significant first |
| Written.ArrayWritten | AMF3/src/amfarray.cpp:24-52 | arrays are marker, dense length, name and value of every entry in byte order of the names, the empty name and the dense items |
| Written.ObjectWritten | AMF3/src/amfobject.cpp:47-127 | objects with a value for every attribute are marker, traits, the values of the distinct attributes in byte order of their names, and for dynamic ones the dynamic members and the empty name |
| Written.VectorWritten | AMF3/src/amfvector.cpp:86-106 | object vectors are marker, length, fixed flag, type name and items |
| Written.LookupWritten | AMF3/include/serializationcontext.hpp:66-76 | the first entry that throws in comparison or is equal decides: an exception, or marker and reference; an item that passes them all is new |
| Written.FirstByteWritten | AMF3/include/amfitem.hpp:10-29 | the first byte of anything written, in any context, is the number of its class |
| Invariant.EncodeKeeps | AMF3/include/serializationcontext.hpp:19-76 | serializing any item keeps the tables free of duplicates and of entries that throw in comparison, and every known class name in the string table |
| Invariant.StreamInvariant | AMF3/src/serializer.cpp:7-12 | so does every stream from a cleared context |
| Invariant.LookupUnique | AMF3/src/serializationcontext.cpp:11-25 | in such a context a lookup returns the only match there is |
| Invariant.DroppedNameIsSilent | AMF3/src/amfobject.cpp:54-65 | the class name serialized and dropped for known traits never changes the context |
| Lockstep.RoundTripString | AMF3/src/amfstring.cpp:24-68 | a string decodes to itself, new, known or empty, and both string tables stay the same |
| Lockstep.RoundTripTraits | AMF3/src/amfobject.cpp:54-93 | class name and traits, in line or by reference, decode to the traits with sorted attributes, tables in lockstep |
| Lockstep.RoundTripWords | AMF3/src/amfvector.cpp:30-36 | vector elements decode from network order to the words they were |
| RoundTrip.NeverAnOpenAncestor | AMF3/src/amfarray.cpp:24-27 | a reference is never written to a container still being written around the item |
| RoundTrip.RoundTripReference | AMF3/src/amfobject.cpp:133-137 | a reference decodes to the canonical form of the item it was written for |
| RoundTrip.RoundTripData | AMF3/src/amfbytearray.cpp:13-43 | byte arrays and XML decode to themselves, registered on both sides |
| RoundTrip.RoundTripNumbers | AMF3/src/amfvector.cpp:16-77 | so do integer vectors, element by element |
| RoundTrip.RoundTripProps | AMF3/src/amfarray.cpp:71-78 | named entries and their terminator decode to the canonical map |
| RoundTrip.RoundTripArray | AMF3/src/amfarray.cpp:15-86 | an array not seen before decodes to its canonical form, registered first on both sides |
| RoundTrip.RoundTripObject | AMF3/src/amfobject.cpp:50-188 | so does an object, with traits, sealed and dynamic members |
| RoundTrip.RoundTripVector | AMF3/src/amfvector.cpp:84-134 | so does an object vector |
| RoundTrip.RoundTripItem | AMF3/src/deserializer.cpp:29-73 | for every well-formed item, corresponding contexts and any surroundings: canonical value, exact byte count, corresponding contexts again |
| Framing.DecodeAppend | AMF3/src/deserializer.cpp:29-73 | a successful decoding is unchanged by bytes appended to the input |
| Delimiting.FollowItem | AMF3/src/deserializer.cpp:29-73 | from tables that agree in strings, traits and classes of objects, the decoder follows any encoding to its last byte, doubles, NaNs and integers of any width included, and the tables agree again |
| Delimiting.TruncationFails | AMF3/src/deserializer.cpp:29-73 | every strict prefix of an encoding is rejected, if no name that could end a list is empty and attribute counts fit the traits header (below 2^24) |
| Delimiting.PrefixFree | AMF3/src/deserializer.cpp:29-73 | from one context no such encoding is a proper prefix of another, and equal bytes of well-formed items mean equal canonical values |
| Delimiting.ArrayUncuttableIff | AMF3/src/amfarray.cpp:72-74 | a new array without dense items whose values delimit themselves can be cut short exactly if it has an entry under the empty key |
| Delimiting.ObjectUncuttableIff | AMF3/src/amfobject.cpp:178-185 | a new dynamic object whose values delimit themselves can be cut short exactly if it has an empty dynamic name |
| Stream.EncodeSeqSplit | AMF3/src/serializer.cpp:7-12 | a stream is the concatenation of its parts, each from the context the one before left |
| Stream.StreamRoundTrip | AMF3/include/deserializer.hpp:25-28 | after each item of any stream the decoder has the canonical items so far, has used their bytes, and has the corresponding tables |
| Stream.ViewMeans | AMF3/include/serializationcontext.hpp:19-76 | corresponding: same strings, traits up to sorted attributes, objects entry by entry canonical |
| Stream.SmallStreamRoundTrip | AMF3/src/serializer.cpp:7-12 | a stream within 64 strings, 64 objects and 32 traits needs no further condition |
| Exceptions.EncodeSifts | AMF3/include/serializationcontext.hpp:66-76 | from any tables that came about without an exception, under containers still open, an item throws exactly if it is not encodable or something looked up throws in comparison with an entry or with something else looked up; otherwise everything looked up equals an entry afterwards |
| Exceptions.StreamThrowsIff | AMF3/src/serializer.cpp:7-12 | a stream through one serializer throws exactly if one of its items has over-long data, a missing sealed value, an externalizable object or an open container, or two of the objects it looks up throw in comparison |
| Exceptions.SeparateExternalsThrow | AMF3/src/amfobject.cpp:26-31 | two objects that differ only in the externalizable object each holds in a property that is never written: the second throws if those are separate and is a reference if they are one |
| Exceptions.NoExternalQuiet | AMF3/src/amfobject.cpp:26-31 | no comparison throws among items without externalizable objects in what is compared |
| Exceptions.EqEncodable | AMF3/src/amfobject.cpp:10-34 | an item that equals one that can be written can be written |
| Exceptions.WellFormedEncodable | AMF3/src/amfobject.cpp:103-107 | none of that occurs in well-formed items |
| Exceptions.WellFormedStream | AMF3/src/serializer.cpp:7-12 | a stream of well-formed items throws exactly if two of the objects it looks up throw in comparison |
| Compression.NeverLonger | AMF3/src/amfstring.cpp:24-45 | from any two contexts, the encoding with tables, if both are written, is never longer than the one without |
| Compression.CompressionTransparent | AMF3/src/amfarray.cpp:24-30 | the encoding without tables exists and decodes to the canonical value, and so does the one with tables if no comparison throws and its references fit |
| Congruence.EncodeAlike | AMF3/src/amfdictionary.cpp:18-24 | from pointwise equal tables equal items both throw, or write as many bytes and leave such tables; the bytes are the same if no floating-point zero is written |
| Hashing.HashConsistentIff | AMF3/src/amfdictionary.cpp:18-24 | everything that equals a key that can be written hashes like it exactly if no floating-point zero is written for the key |
| Normalise.DecodeSound | AMF3/src/amfobject.cpp:148-185 | decoding from sound tables gives values well-formed but for doubles and pointers into open containers, and sound tables, duplicate names included |
| Normalise.AcceptedIsShaped | AMF3/src/deserializer.cpp:29-73 | anywhere in a stream, every value accepted is well-formed but for doubles and such pointers, and the tables stay sound and settled |
| Normalise.AcceptThenNormalise | AMF3/src/amfobject.cpp:148-185 | whatever item an accepted graph without doubles unfolds to is well-formed, and re-encoding it with or without tables and decoding again gives its canonical form |
| Normalise.AcceptedValueNormalises | AMF3/src/deserializer.cpp:29-73 | in particular so does every value accepted from a fresh context without doubles and loops |
| SerializationContexts.SerializationContext.constructor | AMF3/include/serializationcontext.hpp:15 | a new context is empty |
| SerializationContexts.SerializationContext.Clear | AMF3/src/serializationcontext.cpp:5-9 | all three tables are empty afterwards |
| SerializationContexts.SerializationContext.AddString | AMF3/include/serializationcontext.hpp:19-23 | the string is appended unless empty, nothing else changes |
| SerializationContexts.SerializationContext.AddTraits | AMF3/include/serializationcontext.hpp:29-31 | the traits are appended, nothing else changes |
| SerializationContexts.SerializationContext.AddObject | AMF3/include/serializationcontext.hpp:37-50 | the entry is appended, nothing else changes |
| SerializationContexts.SerializationContext.GetString | AMF3/include/serializationcontext.hpp:25-27 | the entry at the index, or an exception out of range |
| SerializationContexts.SerializationContext.GetTraits | AMF3/include/serializationcontext.hpp:33-35 | the entry at the index, or an exception out of range |
| SerializationContexts.SerializationContext.IndexOfString | AMF3/src/serializationcontext.cpp:11-17 | the first match, or -1 exactly when there is none |
| SerializationContexts.SerializationContext.IndexOfTraits | AMF3/src/serializationcontext.cpp:19-25 | the first match, or -1 exactly when there is none |
| SerializationContexts.IndexOfObject | AMF3/include/serializationcontext.hpp:66-76 | the first entry of the class that compares equal, -1 when there is none, or an exception exactly when a comparison before that throws |
| Serialize.SerializeString | AMF3/src/amfstring.cpp:24-45 | bytes, tables and exceptions are those specified |
| Serialize.SerializeNames | AMF3/src/amfobject.cpp:87-91 | the loop over the attribute names does what is specified |
| Serialize.SerializeTraits | AMF3/src/amfobject.cpp:54-93 | class name, traits lookup and inline traits do what is specified |
| Serialize.SerializeWords | AMF3/src/amfvector.cpp:30-36 | the loop over vector elements writes each in network order |
| Serialize.SerializeItem | AMF3/include/amfitem.hpp:38 | serializing any item writes the specified bytes and leaves the specified tables, or throws when specified |
| Serialize.SerializeTabled | AMF3/src/amfxml.cpp:13-25 | lookup, registration and body of every class in the object table |
| Serialize.SerializeArray | AMF3/src/amfarray.cpp:29-52 | header, named entries, terminator and dense items in a growing buffer |
| Serialize.SerializeObject | AMF3/src/amfobject.cpp:52-127 | traits, sealed values by attribute, dynamic members and their end marker |
| Serialize.SerializeVector | AMF3/src/amfvector.cpp:90-106 | header, fixed flag, type name and items |
| Serialize.SerializeSeq | AMF3/src/amfarray.cpp:46-50 | the loop over items, each from the context the one before left |
| Serialize.SerializeProps | AMF3/src/amfarray.cpp:33-41 | the loop over named entries |
| Serialize.SerializeSealed | AMF3/src/amfobject.cpp:103-107 | the loop over the attributes throws on the first one without a value |
| Decoder.Decode | AMF3/src/deserializer.cpp:29-73 | the recursion ends on every input; success advances by at least a byte, never past the end, only appends to the tables and leaves no new container open |
| Accepted.AcceptedIff | AMF3/src/deserializer.cpp:29-73 | an item is accepted exactly if the input holds a sentence for it, in the numbers and the order of the format, or a reference to an entry of its class; attributes and members are taken in the order of the wire and the last of equal names stays |
| Accepted.LatestUnique | AMF3/src/amfobject.cpp:172-185 | what came last under every name determines the map |
| Accepted.StringAcceptedIff | AMF3/src/amfstring.cpp:54-68 | a string is accepted exactly as a reference to its entry, or as length and bytes, with a new entry unless it is empty |
| Accepted.FirstByteTells | AMF3/src/deserializer.cpp:33-68 | the first byte gives the class of what is accepted, and the value of a boolean; no other first byte is accepted |
| Heap.RepPreserved | AMF3/src/amfarray.cpp:63-67 | what a pointer stands for survives new nodes and further filling of open containers |
| Heap.ReferenceRep | AMF3/include/serializationcontext.hpp:52-60 | reference i yields the very pointer registered i-th, class-checked, finished or still open |
| Heap.UnfoldsIff | AMF3/src/amfarray.cpp:59-85 | the trees a decoded graph unfolds to are exactly the decoded value with each pointer back into an open container replaced by what that container has become |
| Heap.RepUnfolds | AMF3/src/amfarray.cpp:59-85 | a decoded graph unfolds to the decoded value itself exactly when that has no such pointer |
| Overwrite.LoopWithoutCycle | AMF3/src/amfarray.cpp:71-78 | 19 bytes that decode to a value with a loop and to a tree, as a later entry of the same name overwrites the one that closed the cycle; the tree is well-formed and normalises |
| Heap.UnfoldsUnique | AMF3/src/amfarray.cpp:59-85 | a graph unfolds to at most one tree |
| Deserialize.Deserializer.DeserializeString | AMF3/src/amfstring.cpp:54-68 | cursor, table and result are those specified |
| Deserialize.Deserializer.DeserializeNames | AMF3/src/amfobject.cpp:152-157 | the loop over the sealed names, duplicates included |
| Deserialize.Deserializer.DeserializeTraits | AMF3/src/amfobject.cpp:139-161 | traits by reference or in line |
| Deserialize.Deserializer.GetPointer | AMF3/include/serializationcontext.hpp:52-60 | the registered pointer, of the class asked for, or an exception |
| Deserialize.Deserializer.Register | AMF3/include/serializationcontext.hpp:48-50 | a new node enters store and table, and everything there stands for what it stood for |
| Deserialize.Deserializer.ReadNamed | AMF3/src/amfarray.cpp:71-78 | the loop that fills a map through the container's pointer collects the specified entries |
| Deserialize.Deserializer.ReadListed | AMF3/src/amfarray.cpp:80-83 | the loop that pushes to a container collects the specified items |
| Deserialize.Deserializer.ReadSealed | AMF3/src/amfobject.cpp:172-175 | the loop over the attributes collects the specified values, the last of a repeated name |
| Deserialize.Deserializer.DeserializeArray | AMF3/src/amfarray.cpp:55-86 | an array registered first and filled in place stands for the decoded array |
| Deserialize.Deserializer.DeserializeObject | AMF3/src/amfobject.cpp:139-188 | so does an object |
| Deserialize.Deserializer.DeserializeVector | AMF3/src/amfvector.cpp:108-134 | so does an object vector |
| Deserialize.Deserializer.DeserializeData | AMF3/src/amfbytearray.cpp:33-42 | byte arrays and XML are registered and returned as copies |
| Deserialize.Deserializer.DeserializeNumbers | AMF3/src/amfvector.cpp:51-76 | so are integer vectors, each element from network order |
| Deserialize.Deserializer.DeserializeReference | AMF3/src/amfarray.cpp:60-61 | a container reference returns the registered pointer itself, any other a copy |
| Deserialize.Deserializer.Deserialize | AMF3/src/deserializer.cpp:29-73 | succeeds exactly when the value decoder does, with the same cursor and tables, a pointer that stands for the value, no earlier node changed, and at most as many new nodes as bytes read; a container is returned by the very pointer in its table entry, a known one without a new node; every container in the store is registered and no two doubles in it are marked as one |
| Session.Serializer.constructor | AMF3/include/serializer.hpp:16 | a new serializer is that of the empty stream |
| Session.Serializer.Put | AMF3/src/serializer.cpp:7-12 | throws exactly if the item is not encodable or two of the objects looked up so far throw in comparison; otherwise buffer and tables are those of the stream of all items put so far |
| Session.Serializer.Clear | AMF3/include/serializer.hpp:22 | the serializer is that of the empty stream again |
| Session.ReadAll | AMF3/include/deserializer.hpp:25-28 | repeated decoding with one context does what the value decoder does on the stream, and returns every container by the pointer in its entry |
| Session.EntriesOfStream | AMF3/include/serializationcontext.hpp:48-76 | the entry the decoder registers or finds for a container is the one the encoder has for it |
| Session.SameEntryIff | AMF3/include/serializationcontext.hpp:66-76 | two items of a stream have one entry exactly when they compare equal |
| Store.AcyclicIff | AMF3/include/amfitemptr.hpp:41-43 | a store of nodes is acyclic exactly if every pointer into it unfolds to a tree |
| Store.StreamEntries | AMF3/include/serializationcontext.hpp:37-40 | the entries a stream leaves are parts of what was sent, and every part equals one |
| Store.OneEachIff | AMF3/include/serializationcontext.hpp:48-76 | no two containers in the store a stream arrives in, at any depth, unfold to the same tree exactly if no two parts of what was sent have one canonical form without being equal |
| Session.Exchange | AMF3/src/serializer.cpp:7-12 | well-formed items put through a serializer and a deserializer arrive as graphs that unfold to their canonical forms, all bytes used, no more nodes than bytes, in an acyclic store fit for comparing pointers; two top-level containers arrive as one node exactly when they were equal, and alike containers at any depth are one node exactly under the condition above |
| Dictionary.IndexOfDictionary | AMF3/include/serializationcontext.hpp:66-76 | the first dictionary in the object table that compares equal, or -1 exactly when there is none |
| DictionaryFormat.SameIff | AMF3/src/amfdictionary.cpp:26-30 | dictionaries compare equal exactly if they have the same flag, as many entries, and every entry of the first has an equal one in the second, wherever it is |
| DictionaryFormat.PermutedIsReference | AMF3/src/amfdictionary.cpp:33-35 | a dictionary that was sent in another order before is written as a reference |
| DictionaryFormat.KnownWritten | AMF3/src/amfdictionary.cpp:33-35 | the first known dictionary that compares equal decides: 17 and its reference; else the entries follow |
| DictionaryFormat.NewWritten | AMF3/src/amfdictionary.cpp:36-51 | an entry in the table, then 17, number of entries, weak flag and key and value of every entry |
| DictionaryFormat.DictionaryAcceptedIff | AMF3/src/amfdictionary.cpp:54-78 | a dictionary is accepted exactly as a reference to the first with its index, or as 17, count, a byte that is not 0 if weak, and keys and values in turn |
| DictionaryFormat.GatherLast | AMF3/src/amfdictionary.cpp:70-75 | under every key the value that came last under an equal one is found |
| DictionaryFormat.GatherFirst | AMF3/src/amfdictionary.cpp:70-75 | the keys kept are those that came first, no two of them equal |
| Dictionary.SerializeDictionary | AMF3/src/amfdictionary.cpp:32-51 | a reference to an equal dictionary, or the bytes of the loop over the entries, with the tables specified |
| Dictionary.RoundTripNew | AMF3/src/amfdictionary.cpp:36-78 | a dictionary sent in full decodes to the collection of its canonical entries, flag and byte count right, contexts corresponding |
| Dictionary.RoundTripKnown | AMF3/src/amfdictionary.cpp:33-59 | a reference decodes to what the dictionary it was written for was decoded to |
| Dictionary.SameEntries | AMF3/src/amfdictionary.cpp:26-30 | dictionaries that compare equal hold the same canonical entries, although the comparison only looks from one side |
| Dictionary.KeepsRemembered | AMF3/src/amfdictionary.cpp:33-36 | serializing a dictionary keeps the tables free of duplicates and those dictionaries in the table in order and fit to be sent |
| Dictionary.AllEntriesArriveIff | AMF3/src/amfdictionary.cpp:70-75 | as many entries arrive as were sent exactly when the keys have distinct canonical forms |
| Dictionary.EnumerationOrderIrrelevant | AMF3/src/amfdictionary.cpp:42-48 | two orders of the same entries decode to maps that answer every lookup alike |
| Dictionary.DictionaryTheorem | AMF3/src/amfdictionary.cpp:32-78 | in any enumeration order, in full or as a reference to an equal one, empty or not, a dictionary arrives with the flag, the number of entries and under every key sent the canonical value, and both sides know corresponding dictionaries |
| Dictionary.ElementsTrip | AMF3/src/serializer.cpp:7-12 | so does every element of a stream of items and dictionaries, from any tables that meet the invariant |
| Dictionary.MixedStreamTrip | AMF3/src/serializer.cpp:7-12 | and so from a cleared context, with no condition on the tables |

## Left out

- RoundTrip.RoundTripItem: one direction only. A reference that does not fit makes the decoder misread what follows, and on arbitrary items that can still happen to give an equal value; the condition is exact on streams of strings (`Limits.StringStreamIff`) and for single references (`Limits.StringReferenceLimit`, `Limits.ObjectReferenceLimit`, `Limits.TraitsReferenceLimit`).
- Decoder.Decode: rejects the markers of dates, vectors of doubles and dictionaries, which the source reads. The first two rest on floating-point conversion and comparison; dictionaries are modelled on their own.
- Session.Exchange: the node of a container inside another is tied to equality through what the nodes unfold to (`Store.OneEachIff`), not along the path it was sent under.
- Dictionary.DictionaryTheorem: covers dictionaries that are not nested in other items and have `asString` off; decoding is modelled on values, without pointers. Keys that hold doubles or cycles are outside: 0.0 and -0.0 are equal keys that hash apart.
- Dictionary.SerializeDictionary: no comparison of dictionaries throws in it. Of dictionaries that hold externalizable objects the source's may, depending on the enumeration order.
- Externalizable objects with functions installed by the caller, in `serialize`, `deserialize` and `operator==`.
- Encoding cyclic graphs, where `operator==` and `serialize` recurse without end.
- Contexts after an exception: a string or object may stay registered without having been sent.
- Resource limits: allocation failure and recursion depth.
- AMF packets, AMF0, RTMP chunk headers, handshake, connections, server threads, buffers and logging.
