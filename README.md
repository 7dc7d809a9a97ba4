# indoqa-xml in Dafny: the caching pipeline and the SAX utilities

This project models the core of indoqa-xml, a library of XML pipelines built from SAX components. The model has two parts, each proved in Dafny.

**The caching substrate.**
- The cache-key algebra: simple, invalid, expires, timestamped URL/`Source`, URL-list, compound, parameter, object and cached keys. Each key's `equals`, `isValid` and `getLastModified` is a function over one datatype. The mutable key classes are Dafny classes whose loops are proved to compute those functions.
- The cache values, bound to the key they were produced under.
- `SimpleCache`: a `WeakHashMap` lookup, which needs the same hash code and `equals`, with a validity filter.
- `CachingOutputStream`: a tee into a growable byte array.
- The pipeline state machine of `AbstractPipeline`, `CachingPipeline` and `AsyncCachePipeline`. This covers setup order, the cache hit/miss decision, storing of the produced bytes and the hand-over of stale keys to the refresh manager.
- The pending-key bookkeeping of `CacheRefreshManagerImpl`.

**The SAX utilities.**
- `SAXBuffer` and `ParamSAXBuffer`.
- `AbstractSAXTransformer`: prefix-mapping bookkeeping and recorders.
- `SAXEventsBuilder`.
- `VariableExpressionTokenizer`.
- `CleaningTransformer`.
- `AbstractLinkRewriterTransformer`.
- `XMLSerializer` and `TextSerializer` (their output properties and the events they forward).
- The namespace-normalizing `DOMStreamer`.
- The bounded `InMemoryLRUResourceCache` and the two transformers that compile resources into it, `XSLTTransformer` and `SchemaProcessorTransformer`.
- `TraxErrorListener`.
- The byte accumulation of `MurmurHashCodeBuilder`.

What the code does not compute itself becomes a parameter of the model:
- the clock;
- a URL's last-modified time;
- the result of compiling a stylesheet or schema;
- the link-rewrite callback;
- whether a background refresh throws;
- the hash code of a cache key;
- the identity text of a `StreamSource`.

The model follows the code where it has a surprising edge. Each of these is proved:
- A `SimpleCacheKey` is always valid.
- The timestamped keys' `equals` ignores the timestamp, but their `hashCode` includes it. A lookup needs both to agree, so a re-stamped key that `equals` a stored one can miss it and be stored beside it (`SimpleCaches.RehashedKeyMisses`).
- A compound key whose sub-key is `null` makes `getLastModified` throw a `NullPointerException`, unless an earlier sub-key already reported -1 (`CacheKeys.NullSubKeyThrows`).
- `CachingPipeline.execute` does not check that setup has run.
- A caching pipeline's `setup(null)` succeeds, because the `CachingOutputStream` wraps a `null` stream without complaint.
- A refresh that throws leaves its key pending, so it is never refreshed again.
- `CleaningTransformer` forwards the original attributes of an element.
- A trailing backslash in a variable expression makes the tokenizer read past the end of the string (`Tokenizers.TrailingBackslash`).
- The "LRU" resource cache evicts in insertion order; reads do not refresh an entry.
- `TextSerializer.recycle` resets `hasRootElement` but not `hadNoRootElement`. A recycled serializer therefore closes a `text` wrapper it never opened (`TextSerializers.RecycleKeepsWrapperEnd`).
- The DOM streamer generates an attribute prefix `NS<n>` without checking it against the prefixes already bound (DOMStreamer.java:439-441). An element `NS1:e` in one namespace, with an attribute that needs a prefix for another, gets `NS1` rebound on the element itself, while its start tag still names `NS1:e` (`DomStreamers.GeneratedPrefixClash`).
- An attribute may borrow a prefix bound to its namespace further out, even when an inner declaration rebinds that prefix (DOMStreamer.java:427-429, `DomNamespaces.AssignPrefixBound`).

Each Java source area is one module in its own file. The Java `int` and `long` wrap-around, big-endian byte extraction, UTF-8 encoding, `String.trim`, `String.split(" ")` and `Long.parseLong` are written out in `JavaLang`.

## Model

| member | source | states |
|---|---|---|
| CacheKeys.UrlTimestamps | src/main/java/com/indoqa/xml/pipeline/caching/URLListCacheKey.java:88-92 | one current timestamp per URL of the list, in list order |
| CacheKeys.PartTimestamps | src/main/java/com/indoqa/xml/pipeline/caching/CompoundCacheKey.java:86-90 | one last-modified value per sub-key, in list order |
| CacheKeys.NewExpires | src/main/java/com/indoqa/xml/pipeline/caching/ExpiresCacheKey.java:37-41 | fails exactly when `Long.parseLong(expires)` fails; otherwise wraps the key with creation time `now` and expiration `now + seconds * 1000` modulo 2^64, which equals that sum when it fits in a long |
| CacheKeys.NewInvalid | src/main/java/com/indoqa/xml/pipeline/caching/InvalidCacheKey.java:29-35 | a `null` seed is an `IllegalArgumentException`; otherwise an invalid key that is never valid, not even against itself |
| CacheKeys.SimpleKeyRules | src/main/java/com/indoqa/xml/pipeline/caching/SimpleCacheKey.java:28-46 | a simple key equals exactly the simple keys, is valid for every candidate (`null` included) and reports 0 |
| CacheKeys.InvalidKeyRules | src/main/java/com/indoqa/xml/pipeline/caching/InvalidCacheKey.java:37-60 | invalid keys are equal exactly when their seeds are, are never valid and report -1 |
| CacheKeys.ObjectKeyRules | src/main/java/com/indoqa/xml/pipeline/caching/ObjectCacheKey.java:34-71 | object keys are equal when the objects are, valid exactly when equal, and report 0 |
| CacheKeys.ParameterKeyRules | src/main/java/com/indoqa/xml/pipeline/caching/ParameterCacheKey.java:106-152 | parameter keys are equal when the maps are, valid exactly when equal, and report -1 |
| CacheKeys.TimestampURLKeyRules | src/main/java/com/indoqa/xml/pipeline/caching/TimestampURLCacheKey.java:45-81 | equality compares the URLs only, validity also needs the very same timestamp, and the timestamp is the last-modified value |
| CacheKeys.TimestampSourceKeyRules | src/main/java/com/indoqa/xml/pipeline/caching/TimestampSourceCacheKey.java:46-82 | the same three rules over the source object |
| CacheKeys.ExpiresKeyRules | src/main/java/com/indoqa/xml/pipeline/caching/ExpiresCacheKey.java:48-100 | equality compares only the wrapped keys; validity is false for a non-expires candidate, true while the expiration lies after the candidate's creation time, else that of the wrapped keys; the last-modified value is the wrapped key's |
| CacheKeys.CachedKeyRules | src/main/java/com/indoqa/xml/pipeline/caching/CachedCacheKey.java:53-90 | equality compares the internal keys; validity needs equality and an inner cached key valid against the other's; the last-modified value is -1 without an inner key, else the inner key's |
| CacheKeys.EqualsSymmetric | src/main/java/com/indoqa/xml/pipeline/caching/CompoundCacheKey.java:45-79 | key equality, through compound and expires keys, is symmetric |
| CacheKeys.EqualsTransitive | src/main/java/com/indoqa/xml/pipeline/caching/CompoundCacheKey.java:45-79 | key equality is transitive |
| CacheKeys.EqualsReflexive | src/main/java/com/indoqa/xml/pipeline/caching/CompoundCacheKey.java:60-75 | every key without a `null` inside equals itself; a compound key holding a `null` sub-key equals nothing, not even itself |
| CacheKeys.ValidReflexive | src/main/java/com/indoqa/xml/pipeline/caching/CompoundCacheKey.java:119-140 | a key accepts a value stored under an identical key exactly when no part of it is an invalid key or a cached key without inner key, except below an unexpired expires key |
| CacheKeys.CompoundOrderMatters | src/main/java/com/indoqa/xml/pipeline/caching/CompoundCacheKey.java:62-76 | two compound keys with the same two distinct sub-keys in the other order are not equal |
| CacheKeys.LatestFromSpec | src/main/java/com/indoqa/xml/pipeline/caching/CompoundCacheKey.java:86-100 | the timestamp loop returns -1 as soon as a sub-key reports -1, and otherwise the largest timestamp seen, never less than its start value |
| CacheKeys.LatestSpec | src/main/java/com/indoqa/xml/pipeline/caching/URLListCacheKey.java:96-107 | from 0: -1 if any timestamp is -1, else a non-negative bound of all timestamps that is 0 or one of them |
| CacheKeys.CompoundLastModified | src/main/java/com/indoqa/xml/pipeline/caching/CompoundCacheKey.java:86-100 | an empty compound key reports 0, one with a sub-key reporting -1 reports -1, and otherwise a value no smaller than any sub-key's |
| CacheKeys.NullFreeLastModified | src/main/java/com/indoqa/xml/pipeline/caching/CompoundCacheKey.java:86-100 | a key with no `null` sub-key anywhere never throws, and its outcome is the last-modified value |
| CacheKeys.NullSubKeyThrows | src/main/java/com/indoqa/xml/pipeline/caching/CompoundCacheKey.java:88-90 | a compound key whose first `null` sub-key comes after sub-keys that all report something other than -1 throws a `NullPointerException` |
| CompoundKey.CompoundCacheKey.constructor | src/main/java/com/indoqa/xml/pipeline/caching/CompoundCacheKey.java:38 | a new compound key holds no sub-keys |
| CompoundKey.CompoundCacheKey.AddCacheKey | src/main/java/com/indoqa/xml/pipeline/caching/CompoundCacheKey.java:40-42 | the sub-key, `null` included, is appended after the others |
| CompoundKey.CompoundCacheKey.Equals | src/main/java/com/indoqa/xml/pipeline/caching/CompoundCacheKey.java:45-79 | the loop returns exactly the key algebra's equality of the compound key it holds |
| CompoundKey.CompoundCacheKey.IsValid | src/main/java/com/indoqa/xml/pipeline/caching/CompoundCacheKey.java:119-140 | the loop returns exactly the key algebra's validity of the compound key it holds |
| CompoundKey.CompoundCacheKey.GetLastModified | src/main/java/com/indoqa/xml/pipeline/caching/CompoundCacheKey.java:86-100 | the loop returns the outcome the key algebra defines, with the `NullPointerException` of a `null` sub-key; for a key without `null` sub-keys that is the algebra's last-modified value |
| URLListKey.Timestamps | src/main/java/com/indoqa/xml/pipeline/caching/URLListCacheKey.java:94-98 | the stored timestamps of the URL keys, position by position |
| URLListKey.URLListCacheKey.constructor | src/main/java/com/indoqa/xml/pipeline/caching/URLListCacheKey.java:44 | a new URL list holds no URLs |
| URLListKey.URLListCacheKey.AddURL | src/main/java/com/indoqa/xml/pipeline/caching/URLListCacheKey.java:46-48 | one key for the URL is appended, stamped with its current last-modified time |
| URLListKey.URLListCacheKey.Equals | src/main/java/com/indoqa/xml/pipeline/caching/URLListCacheKey.java:51-85 | the loop returns the algebra's equality: same length and the same URLs in order |
| URLListKey.URLListCacheKey.IsValid | src/main/java/com/indoqa/xml/pipeline/caching/URLListCacheKey.java:126-147 | the loop returns the algebra's validity: equal and the same timestamps in order |
| URLListKey.URLListCacheKey.GetLastModified | src/main/java/com/indoqa/xml/pipeline/caching/URLListCacheKey.java:88-107 | every URL is re-stamped with its current time, and the result is the algebra's last-modified value of the key as it was before |
| URLListKey.RefreshKeepsIdentity | src/main/java/com/indoqa/xml/pipeline/caching/URLListCacheKey.java:88-92 | after the re-stamping the list still equals its earlier self, and is valid for it exactly when no timestamp moved |
| TimestampKeys.TimestampURLCacheKey.constructor | src/main/java/com/indoqa/xml/pipeline/caching/TimestampURLCacheKey.java:38-44 | the key holds the given URL and timestamp |
| TimestampKeys.TimestampURLCacheKey.SetTimestamp | src/main/java/com/indoqa/xml/pipeline/caching/TimestampURLCacheKey.java:83-85 | only the timestamp changes: the key stays equal to its old self both ways, reports the new timestamp, and is valid for its old self exactly when the timestamp is unchanged |
| TimestampKeys.TimestampSourceCacheKey.constructor | src/main/java/com/indoqa/xml/pipeline/caching/TimestampSourceCacheKey.java:39-45 | the key holds the given source and timestamp |
| TimestampKeys.TimestampSourceCacheKey.SetTimestamp | src/main/java/com/indoqa/xml/pipeline/caching/TimestampSourceCacheKey.java:84-86 | the same consequences as for the URL key |
| ParameterKey.SitemapSafe | src/main/java/com/indoqa/xml/pipeline/caching/ParameterCacheKey.java:70-81 | exactly the non-reserved names of the map, each with the string form of its value; nothing for a `null` map |
| ParameterKey.Prefixed | src/main/java/com/indoqa/xml/pipeline/caching/ParameterCacheKey.java:91-95 | an entry `name_key` for every map entry with that entry's value, and no other entries |
| ParameterKey.PrefixedAdd | src/main/java/com/indoqa/xml/pipeline/caching/ParameterCacheKey.java:91-95 | one more map entry adds exactly its one prefixed entry |
| ParameterKey.SitemapSafeIgnoresReserved | src/main/java/com/indoqa/xml/pipeline/caching/ParameterCacheKey.java:33-36 | two maps that agree outside the reserved names give equal sitemap-safe keys |
| ParameterKey.ParameterCacheKey.constructor | src/main/java/com/indoqa/xml/pipeline/caching/ParameterCacheKey.java:42-44 | an empty, modifiable map |
| ParameterKey.ParameterCacheKey.Of | src/main/java/com/indoqa/xml/pipeline/caching/ParameterCacheKey.java:46-52 | the key holds the given map as it is |
| ParameterKey.ParameterCacheKey.AddString | src/main/java/com/indoqa/xml/pipeline/caching/ParameterCacheKey.java:97-99 | sets `name` to the value, replacing an earlier one; on a read-only map an `UnsupportedOperationException` and no change |
| ParameterKey.ParameterCacheKey.AddBool | src/main/java/com/indoqa/xml/pipeline/caching/ParameterCacheKey.java:83-85 | stores `"true"` or `"false"` under the name |
| ParameterKey.ParameterCacheKey.AddInt | src/main/java/com/indoqa/xml/pipeline/caching/ParameterCacheKey.java:87-89 | stores the decimal form of the int, which `Long.parseLong` reads back to the same value |
| ParameterKey.ParameterCacheKey.AddMap | src/main/java/com/indoqa/xml/pipeline/caching/ParameterCacheKey.java:91-95 | adds the prefixed entries of the map to the parameters; an empty map changes nothing even on a read-only key |
| ParameterKey.PutPrefixedStep | src/main/java/com/indoqa/xml/pipeline/caching/ParameterCacheKey.java:92-94 | putting one more entry in the loop adds its prefixed entry to what is already there |
| ParameterKey.PutPrefixed | src/main/java/com/indoqa/xml/pipeline/caching/ParameterCacheKey.java:91-95 | the loop, in any entry order, leaves the old parameters overridden by the prefixed entries |
| ParameterKey.NewParameterCacheKey | src/main/java/com/indoqa/xml/pipeline/caching/ParameterCacheKey.java:46-52 | a `null` map is an `IllegalArgumentException`; otherwise a modifiable key over that map |
| ParameterKey.NewStringParameterCacheKey | src/main/java/com/indoqa/xml/pipeline/caching/ParameterCacheKey.java:59-62 | a key holding exactly the one entry |
| ParameterKey.NewMapParameterCacheKey | src/main/java/com/indoqa/xml/pipeline/caching/ParameterCacheKey.java:54-57 | a key holding exactly the prefixed entries of the map |
| ParameterKey.GetSitemapSafeInstance | src/main/java/com/indoqa/xml/pipeline/caching/ParameterCacheKey.java:70-81 | a read-only key whose map is the sitemap-safe selection |
| CachedKey.SetKeyOutcome | src/main/java/com/indoqa/xml/pipeline/caching/CachedCacheKey.java:97-107 | a string with nothing stored in the side cache gets an invalid key seeded by the class name; a stored value whose key is a URL list or `null` gives exactly that key; any other stored value is a `ClassCastException` |
| CachedKey.FirstSetKey | src/main/java/com/indoqa/xml/pipeline/caching/CachedCacheKey.java:99-102 | a string seen for the first time gets an invalid inner key, so the cached key is valid for no candidate |
| CachedKey.SetValueThenSetKey | src/main/java/com/indoqa/xml/pipeline/caching/CachedCacheKey.java:113-116 | after `setValue(v)` has stored `v` under the string, `setKey` with that string yields `v` again |
| CachedKey.CachedCacheKey.constructor | src/main/java/com/indoqa/xml/pipeline/caching/CachedCacheKey.java:46-51 | both the internal key and the inner key start out `null` |
| CachedKey.CachedCacheKey.SetKey | src/main/java/com/indoqa/xml/pipeline/caching/CachedCacheKey.java:97-107 | the internal key becomes the string; the inner key becomes what `SetKeyOutcome` gives, and a failed cast leaves it as it was |
| CachedKey.CachedCacheKey.SetValue | src/main/java/com/indoqa/xml/pipeline/caching/CachedCacheKey.java:113-116 | the URL list becomes the inner key and is stored in the side cache under the internal key, nothing else changes |
| CacheValues.IsValid | src/main/java/com/indoqa/xml/pipeline/caching/AbstractCacheValue.java:39-41 | a value without a key is never valid, otherwise its key's validity for the candidate |
| CacheValues.GetCacheKey | src/main/java/com/indoqa/xml/pipeline/caching/AbstractCacheValue.java:43-45 | whenever the value is valid for a candidate, its key exists and is valid for that candidate |
| CacheValues.GetValue | src/main/java/com/indoqa/xml/pipeline/caching/CompleteCacheValue.java:52-54 | the bytes of a complete value, the object of an object value, the bound key of a cached value |
| CacheValues.WriteTo | src/main/java/com/indoqa/xml/pipeline/caching/CompleteCacheValue.java:103-105 | a complete value writes its bytes, the same as `getValue`; the other kinds throw `UnsupportedOperationException` |
| CacheValues.Size | src/main/java/com/indoqa/xml/pipeline/caching/CompleteCacheValue.java:88-90 | the size of a complete value is the number of bytes `writeTo` writes |
| CacheValues.SetValue | src/main/java/com/indoqa/xml/pipeline/caching/CompleteCacheValue.java:62-65 | a complete value takes the string's UTF-8 bytes (between one and four per character) and keeps its key; the other kinds throw |
| CacheValues.SetValueRoundTrip | src/main/java/com/indoqa/xml/pipeline/caching/CompleteCacheValue.java:62-65 | after `setValue(s)` the bytes `writeTo` writes decode to the characters of `s`, and validity is unchanged |
| SimpleCaches.MatchesSymmetric | src/main/java/com/indoqa/xml/pipeline/caching/SimpleCache.java:54-57 | a lookup hit (same hash code and equal) is symmetric between the probe and the stored key |
| SimpleCaches.MatchesTransitive | src/main/java/com/indoqa/xml/pipeline/caching/SimpleCache.java:54-57 | a lookup hit is transitive |
| SimpleCaches.Find | src/main/java/com/indoqa/xml/pipeline/caching/SimpleCache.java:54-57 | the position of the first entry whose key has the probe's hash code and is equal to the probe; none exactly when no entry's key matches that way |
| SimpleCaches.Get | src/main/java/com/indoqa/xml/pipeline/caching/AbstractCache.java:37-51 | with `includeInvalid` the stored value, `null` included; otherwise the stored value only when it is valid for the key |
| SimpleCaches.FindIs | src/main/java/com/indoqa/xml/pipeline/caching/SimpleCache.java:54-57 | the lookup hits entry `i` when it is the first entry the probe matches |
| SimpleCaches.FindEqual | src/main/java/com/indoqa/xml/pipeline/caching/SimpleCache.java:54-57 | a probe equal to a key and with the same hash code hits the entry that key would hit |
| SimpleCaches.StoredDistinct | src/main/java/com/indoqa/xml/pipeline/caching/SimpleCache.java:67-71 | `store` never creates two entries whose keys match by hash code and `equals`; equal keys with different hash codes can both be stored |
| SimpleCaches.StoreThenLookup | src/main/java/com/indoqa/xml/pipeline/caching/AbstractCache.java:60-62 | after a store, a lookup with a key of the same hash code that is equal to the stored key returns the stored value |
| SimpleCaches.StoreLeavesOthers | src/main/java/com/indoqa/xml/pipeline/caching/SimpleCache.java:67-71 | a store leaves the lookup of every key that does not match untouched |
| SimpleCaches.RemovedAbsent | src/main/java/com/indoqa/xml/pipeline/caching/SimpleCache.java:91-100 | after `doRemove` nothing is found under the key |
| SimpleCaches.RemovedDistinct | src/main/java/com/indoqa/xml/pipeline/caching/SimpleCache.java:91-100 | `doRemove` keeps the keys distinct |
| SimpleCaches.RemovedLeavesOthers | src/main/java/com/indoqa/xml/pipeline/caching/SimpleCache.java:91-100 | `doRemove` leaves the lookup of every key that does not match untouched |
| SimpleCaches.RemovedLookup | src/main/java/com/indoqa/xml/pipeline/caching/SimpleCache.java:95-96 | dropping an entry the probe does not match leaves the lookup for the probe as it was |
| SimpleCaches.RehashedKeyMisses | src/main/java/com/indoqa/xml/pipeline/caching/SimpleCache.java:54-71 | a key equal to a stored one but with another hash code finds nothing, and storing under it adds a second entry while both lookups keep their own value |
| SimpleCaches.SimpleCache.constructor | src/main/java/com/indoqa/xml/pipeline/caching/SimpleCache.java:34 | a new cache is empty and looks keys up by the given hash codes |
| SimpleCaches.SimpleCache.Put | src/main/java/com/indoqa/xml/pipeline/caching/AbstractCache.java:60-62 | the entries become `store` of the old ones, the keys stay distinct, and `get(key, true)` then returns the value |
| SimpleCaches.SimpleCache.Clear | src/main/java/com/indoqa/xml/pipeline/caching/AbstractCache.java:70-72 | no entries are left |
| SimpleCaches.SimpleCache.Remove | src/main/java/com/indoqa/xml/pipeline/caching/SimpleCache.java:91-100 | the matching entry is dropped, nothing is found under the key afterwards, and the result is always `true` |
| SimpleCaches.SimpleCache.KeySet | src/main/java/com/indoqa/xml/pipeline/caching/SimpleCache.java:108-112 | exactly the keys of the stored entries |
| CachingOutputStreams.LowByte | src/main/java/com/indoqa/xml/pipeline/caching/CachingOutputStream.java:84 | the byte stored by `(byte) b` agrees with `b` modulo 256 |
| CachingOutputStreams.CopyInto | src/main/java/com/indoqa/xml/pipeline/caching/CachingOutputStream.java:70 | `System.arraycopy` of the slice: it lands at the offset and every other byte of the buffer stays |
| CachingOutputStreams.CachingOutputStream.constructor | src/main/java/com/indoqa/xml/pipeline/caching/CachingOutputStream.java:32-38 | a buffer of 1024 bytes holding nothing, around the given stream |
| CachingOutputStreams.CachingOutputStream.Grow | src/main/java/com/indoqa/xml/pipeline/caching/CachingOutputStream.java:64-68 | a fresh, larger buffer that still holds the bytes buffered so far |
| CachingOutputStreams.CachingOutputStream.WriteByte | src/main/java/com/indoqa/xml/pipeline/caching/CachingOutputStream.java:75-86 | the byte goes to the underlying stream and is appended to the buffered content; the buffer grows by 1024 exactly when it would become full |
| CachingOutputStreams.CachingOutputStream.Write | src/main/java/com/indoqa/xml/pipeline/caching/CachingOutputStream.java:61-72 | a slice outside the array throws before anything changes; otherwise the slice goes to the underlying stream and is appended to the buffered content |
| CachingOutputStreams.CachingOutputStream.WriteSlice | src/main/java/com/indoqa/xml/pipeline/caching/CachingOutputStream.java:62-71 | the stream receives the slice, the buffer grows if the slice would fill it, and the buffered content gains the slice; the underlying stream always holds what it had before plus the buffered content |
| CachingOutputStreams.CachingOutputStream.GetContent | src/main/java/com/indoqa/xml/pipeline/caching/CachingOutputStream.java:50-54 | a fresh array holding exactly the bytes written so far |
| CachingOutputStreams.CachingOutputStream.Flush | src/main/java/com/indoqa/xml/pipeline/caching/CachingOutputStream.java:46-48 | delegates to the underlying stream and changes no bytes |
| CachingOutputStreams.CachingOutputStream.Close | src/main/java/com/indoqa/xml/pipeline/caching/CachingOutputStream.java:41-43 | delegates to the underlying stream, which is then closed |
| Pipelines.LinkError | src/main/java/com/indoqa/xml/pipeline/AbstractPipeline.java:44-61 | linking passes exactly when `setConsumer` is called (a Producer followed by a Consumer) and does not throw; a first component that is no Producer, or a second that is no Consumer, fails with a `SetupException` and its own message; otherwise the exception `setConsumer` throws is the result |
| Pipelines.LinkFromSpec | src/main/java/com/indoqa/xml/pipeline/AbstractPipeline.java:186-203 | the linking loop passes exactly when every later component links to its predecessor and sets up, and then makes the complete setup calls; a failure throws the exception of the first step that fails, whether from the type checks, `setConsumer` or `setup`, after exactly the calls that step reached; the calls are always a prefix of the complete sequence |
| Pipelines.SetupComponentsSpec | src/main/java/com/indoqa/xml/pipeline/AbstractPipeline.java:170-204 | setup passes exactly when the first component is a Starter, the last a Finisher, the first sets up and every later one links and sets up; a wrong end fails with a `SetupException` before any component is called; a throwing first `setup` fails with its exception after that one call; a later failure throws the exception of the first failing step; a passing setup makes the complete call sequence |
| Pipelines.SetupTraceFromAt | src/main/java/com/indoqa/xml/pipeline/AbstractPipeline.java:188-203 | in a complete setup each component after the first is linked to its predecessor right before its own `setup`, and the Finisher gets its output stream last |
| Pipelines.PlainSetupCheck | src/main/java/com/indoqa/xml/pipeline/AbstractPipeline.java:135-138 | `setup` fails exactly when the output stream is `null` |
| Pipelines.Fragments | src/main/java/com/indoqa/xml/pipeline/CachingPipeline.java:138-148 | one key fragment per contributing component, in list order, each the key that component's `constructCacheKey` returned |
| Pipelines.StopAt | src/main/java/com/indoqa/xml/pipeline/CachingPipeline.java:138-149 | where the loop stops: every component before it contributes a non-`null` key, and the one at it, if any, is no caching component, returns `null` or throws |
| Pipelines.FragmentsExtend | src/main/java/com/indoqa/xml/pipeline/CachingPipeline.java:138-148 | the loop adding one more component's key extends the fragments by exactly that key |
| Pipelines.CacheKeyForSpec | src/main/java/com/indoqa/xml/pipeline/CachingPipeline.java:134-177 | all components contributing gives a compound of their keys in order, wrapped in an expires key when `expires` is set; at the first component without a fragment, the exception its `constructCacheKey` throws is thrown, and otherwise the result is `null` without `expires`, and with it an expires key around an invalid key, or an `IllegalArgumentException` for a `null` seed; null-free fragments give a null-free key |
| Pipelines.Deliver | src/main/java/com/indoqa/xml/pipeline/caching/CachingOutputStream.java:61-72 | bytes the Finisher writes go to the setup stream and, when a caching stream wraps it, to its buffer too, or to the refresh buffer; a Finisher without a stream throws a `NullPointerException` and changes nothing |
| Pipelines.Finishes | src/main/java/com/indoqa/xml/pipeline/AbstractPipeline.java:164-166 | one `finish` call per component, in list order |
| Pipelines.StarterOutcome | src/main/java/com/indoqa/xml/pipeline/AbstractPipeline.java:157-163 | an empty pipeline is a `NoSuchElementException`, a first component that is no Starter a `ClassCastException`; a run passes only when the Starter ran and did not throw, and its output is then what the Finisher delivered |
| Pipelines.RunCalls | src/main/java/com/indoqa/xml/pipeline/AbstractPipeline.java:157-168 | `execute` on the Starter when there is one, then `finish` on every component whether or not the Starter threw |
| Pipelines.WriteStored | src/main/java/com/indoqa/xml/pipeline/CachingPipeline.java:64-70 | writing a cached value passes exactly when the caching stream exists, the value can be written and the output stream exists; it then appends the value's bytes to the output, and a failure changes nothing |
| Pipelines.MissOutcome | src/main/java/com/indoqa/xml/pipeline/CachingPipeline.java:73-77 | a run on a miss has the chain's effect on the streams; it passes exactly when the chain passes and the caching stream exists, and a chain failure is reported as it is |
| Pipelines.IndexOf | src/main/java/com/indoqa/xml/pipeline/caching/CacheRefreshManagerImpl.java:49 | the position of the first pending key the key equals, none exactly when no pending key is equal |
| Pipelines.RemovePending | src/main/java/com/indoqa/xml/pipeline/caching/CacheRefreshManagerImpl.java:70 | `List.remove` drops exactly the first pending key the key equals, keeping the others in order, and changes nothing when none is equal |
| Pipelines.AddPendingDistinct | src/main/java/com/indoqa/xml/pipeline/caching/CacheRefreshManagerImpl.java:49-56 | adding a key that is not pending keeps the pending keys pairwise unequal |
| Pipelines.RemovedStillDistinct | src/main/java/com/indoqa/xml/pipeline/caching/CacheRefreshManagerImpl.java:70 | removing a key keeps the pending keys pairwise unequal |
| Pipelines.RemovedNotPending | src/main/java/com/indoqa/xml/pipeline/caching/CacheRefreshManagerImpl.java:66-71 | after a refresh has run and its key is removed, nothing equal to that key is pending |
| Pipelines.RemovedKeepsOthers | src/main/java/com/indoqa/xml/pipeline/caching/CacheRefreshManagerImpl.java:70 | a pending key that the removed key does not equal stays pending |
| Pipelines.PendingAbsorbsEqual | src/main/java/com/indoqa/xml/pipeline/caching/CacheRefreshManagerImpl.java:49-53 | a key equal to a pending one counts as pending, so a second request for it schedules nothing |
| Pipelines.CacheRefreshManager.constructor | src/main/java/com/indoqa/xml/pipeline/caching/CacheRefreshManagerImpl.java:37-39 | no pending keys and no submitted jobs |
| Pipelines.CacheRefreshManager.RefreshCacheValue | src/main/java/com/indoqa/xml/pipeline/caching/CacheRefreshManagerImpl.java:48-58 | a request for a pending key does nothing; otherwise the key becomes pending and exactly one job is submitted, and the pending keys stay pairwise unequal |
| Pipelines.CacheRefreshManager.Step | src/main/java/com/indoqa/xml/pipeline/caching/CacheRefreshManagerImpl.java:66-87 | a worker runs the oldest job; the key is removed from the pending keys only when the refresh did not throw, and the pending keys stay pairwise unequal |
| Pipelines.Pipeline.constructor | src/main/java/com/indoqa/xml/pipeline/AbstractPipeline.java:41-42 | no components, not set up, no stream, cache, key, expiry or refresh manager |
| Pipelines.Pipeline.AddComponent | src/main/java/com/indoqa/xml/pipeline/AbstractPipeline.java:69-78 | before setup the component is appended; after setup a `SetupException` and the components are unchanged |
| Pipelines.Pipeline.SetCache | src/main/java/com/indoqa/xml/pipeline/CachingPipeline.java:98-100 | the cache is the one given |
| Pipelines.Pipeline.SetExpires | src/main/java/com/indoqa/xml/pipeline/CachingPipeline.java:116-118 | `expires` is the value given |
| Pipelines.Pipeline.SetExpiresCacheKey | src/main/java/com/indoqa/xml/pipeline/CachingPipeline.java:120-122 | the expires seed is the value given |
| Pipelines.Pipeline.SetCacheRefreshManager | src/main/java/com/indoqa/xml/pipeline/AsyncCachePipeline.java:102-104 | the refresh manager is the one given |
| Pipelines.Pipeline.SetConfiguration | src/main/java/com/indoqa/xml/pipeline/CachingPipeline.java:108-114 | a caching pipeline takes `expires` and `expires-cache-key` from the parameters, a missing one as `null`; a plain pipeline changes nothing |
| Pipelines.Pipeline.SetupComponentsLoop | src/main/java/com/indoqa/xml/pipeline/AbstractPipeline.java:170-204 | the loop, with `linkComponents` inlined, has the outcome and the calls of `SetupComponents`; the Finisher gets the stream only on success |
| Pipelines.Pipeline.ConstructCacheKey | src/main/java/com/indoqa/xml/pipeline/CachingPipeline.java:134-177 | the loop returns, or throws, what `CacheKeyFor` specifies |
| Pipelines.Pipeline.Setup | src/main/java/com/indoqa/xml/pipeline/CachingPipeline.java:125-132 | a plain pipeline refuses a `null` stream and changes nothing; a caching pipeline wraps the stream in a caching stream first; both then set up the components, are set up only when that passes, and a caching pipeline then computes its key or reports the key's error |
| Pipelines.Pipeline.InvokeStarter | src/main/java/com/indoqa/xml/pipeline/AbstractPipeline.java:157-168 | the Starter's outcome and output, and the `finish` calls on every component whatever that outcome |
| Pipelines.Pipeline.FinishAll | src/main/java/com/indoqa/xml/pipeline/AbstractPipeline.java:164-166 | `finish` on every component, in list order |
| Pipelines.Pipeline.GetCachedValue | src/main/java/com/indoqa/xml/pipeline/CachingPipeline.java:179-196 | nothing without a key or without a cache; otherwise the value stored under a key with the same hash code that is equal to it, valid or not |
| Pipelines.Pipeline.SetCachedValue | src/main/java/com/indoqa/xml/pipeline/CachingPipeline.java:202-215 | without a key or without a cache nothing changes; otherwise the value is stored under the key |
| Pipelines.Pipeline.RunAndStore | src/main/java/com/indoqa/xml/pipeline/CachingPipeline.java:73-78 | the chain runs; on success the buffered output is stored under the pipeline's key, and on failure or without a key the cache is unchanged |
| Pipelines.Pipeline.ExecutePlain | src/main/java/com/indoqa/xml/pipeline/AbstractPipeline.java:86-92 | a pipeline that is not set up throws a `ProcessingException` and runs nothing; otherwise it invokes the Starter |
| Pipelines.Pipeline.ExecuteCaching | src/main/java/com/indoqa/xml/pipeline/CachingPipeline.java:60-79 | a valid cached value is written out without running the chain and the cache is unchanged; otherwise the chain runs and its output is stored under the key |
| Pipelines.Pipeline.ExecuteAsync | src/main/java/com/indoqa/xml/pipeline/AsyncCachePipeline.java:53-80 | the key is recomputed first and its error reported; any stored value, even a stale one, is written out without running the chain, and a stale one schedules a refresh unless its key is already pending (a missing refresh manager is a `NullPointerException`); without a stored value the chain runs and its output is stored |
| Pipelines.Pipeline.Refresh | src/main/java/com/indoqa/xml/pipeline/AsyncCachePipeline.java:92-100 | the Finisher is given a fresh buffer as its stream, recorded as a call, the chain runs, and on success the buffer is stored under the given key; the cache is unchanged when the run fails |
| Pipelines.Pipeline.GetLastModified | src/main/java/com/indoqa/xml/pipeline/CachingPipeline.java:90-96 | -1 for a plain pipeline and for a caching pipeline without a key, otherwise the key's last-modified outcome, which is its last-modified value when no compound part is `null` |
| Pipelines.Pipeline.GetContentType | src/main/java/com/indoqa/xml/pipeline/AbstractPipeline.java:100-102 | the content type of the last component, which must exist and be a Finisher |
| TraxErrorListeners.Thrown | src/main/java/com/indoqa/xml/pipeline/sax/component/TraxErrorListener.java:52-54 | an error without a cause that follows a warning is replaced by that warning; any other error is thrown as it is |
| TraxErrorListeners.OnReport | src/main/java/com/indoqa/xml/pipeline/sax/component/TraxErrorListener.java:48-71 | a warning only becomes the pending warning; an error or fatal error records the exception thrown and clears the pending warning |
| TraxErrorListeners.Throwable | src/main/java/com/indoqa/xml/pipeline/sax/component/TraxErrorListener.java:78-96 | nothing exactly when nothing was recorded; otherwise the recorded exception's cause when it has one, else the exception |
| TraxErrorListeners.WarningKeepsThrowable | src/main/java/com/indoqa/xml/pipeline/sax/component/TraxErrorListener.java:98-112 | a warning never changes what `getThrowable` reports |
| TraxErrorListeners.FatalErrorIsError | src/main/java/com/indoqa/xml/pipeline/sax/component/TraxErrorListener.java:63-71 | `fatalError` has exactly the effect of `error` in every state |
| TraxErrorListeners.WarningThenBareError | src/main/java/com/indoqa/xml/pipeline/sax/component/TraxErrorListener.java:49-58 | a warning followed by an error without a cause records the warning and clears it, so the warning is what `getThrowable` reports (or its cause) |
| TraxErrorListeners.ErrorWithCauseRecorded | src/main/java/com/indoqa/xml/pipeline/sax/component/TraxErrorListener.java:52-58 | an error with a cause is recorded as it is whatever warning came before, and `getThrowable` reports that cause |
| TraxErrorListeners.ErrorClearsWarning | src/main/java/com/indoqa/xml/pipeline/sax/component/TraxErrorListener.java:55 | after an error no warning is pending, so later errors without a warning between them are recorded as themselves |
| TraxErrorListeners.LastErrorRecorded | src/main/java/com/indoqa/xml/pipeline/sax/component/TraxErrorListener.java:52-58 | after any history the last error's exception is recorded, or the warning just before it when the exception has no cause |
| TraxErrorListeners.TraxErrorListener.constructor | src/main/java/com/indoqa/xml/pipeline/sax/component/TraxErrorListener.java:38-41 | nothing recorded, no pending warning, the given location |
| TraxErrorListeners.TraxErrorListener.Error | src/main/java/com/indoqa/xml/pipeline/sax/component/TraxErrorListener.java:48-61 | throws the exception `Thrown` chooses and moves to the state `OnReport` gives |
| TraxErrorListeners.TraxErrorListener.FatalError | src/main/java/com/indoqa/xml/pipeline/sax/component/TraxErrorListener.java:63-71 | throws the exception `Thrown` chooses and moves to the state `OnReport` gives |
| TraxErrorListeners.TraxErrorListener.Warning | src/main/java/com/indoqa/xml/pipeline/sax/component/TraxErrorListener.java:98-112 | the exception becomes the pending warning; nothing else changes |
| TraxErrorListeners.TraxErrorListener.GetThrowable | src/main/java/com/indoqa/xml/pipeline/sax/component/TraxErrorListener.java:78-96 | the value `Throwable` specifies for the current state |
| LruCache.IndexOf | src/main/java/com/indoqa/xml/pipeline/sax/InMemoryLRUResourceCache.java:66 | the position of the key's entry, none exactly when no entry has the key |
| LruCache.Find | src/main/java/com/indoqa/xml/pipeline/sax/InMemoryLRUResourceCache.java:79 | a value exactly when the key is mapped |
| LruCache.Inserted | src/main/java/com/indoqa/xml/pipeline/sax/InMemoryLRUResourceCache.java:92 | putting a mapped key keeps the number of entries; a new key is appended as the newest entry |
| LruCache.PutKeepsInvariant | src/main/java/com/indoqa/xml/pipeline/sax/InMemoryLRUResourceCache.java:53-55 | a put keeps the keys distinct and the cache at no more than 255 entries |
| LruCache.PutThenFind | src/main/java/com/indoqa/xml/pipeline/sax/InMemoryLRUResourceCache.java:90-93 | after `put(key, value)`, `get(key)` returns `value` |
| LruCache.PutKeepsOthers | src/main/java/com/indoqa/xml/pipeline/sax/InMemoryLRUResourceCache.java:90-93 | putting a mapped key, or a new key into a cache with room, leaves every other key's value as it was |
| LruCache.PutEvictsEldest | src/main/java/com/indoqa/xml/pipeline/sax/InMemoryLRUResourceCache.java:53-55 | a new key put into a full cache drops exactly the entry inserted first, whatever the order of reads |
| LruCache.EldestGone | src/main/java/com/indoqa/xml/pipeline/sax/InMemoryLRUResourceCache.java:53-55 | after that put the eldest key is no longer mapped |
| LruCache.InMemoryLRUResourceCache.constructor | src/main/java/com/indoqa/xml/pipeline/sax/InMemoryLRUResourceCache.java:45 | an empty cache |
| LruCache.InMemoryLRUResourceCache.ContainsKey | src/main/java/com/indoqa/xml/pipeline/sax/InMemoryLRUResourceCache.java:64-67 | a `null` key is an `IllegalArgumentException`; otherwise `true` exactly when the key is mapped |
| LruCache.InMemoryLRUResourceCache.Get | src/main/java/com/indoqa/xml/pipeline/sax/InMemoryLRUResourceCache.java:77-80 | a `null` key is an `IllegalArgumentException`; otherwise the entry mapped to the key, or `null` exactly when no entry has the key |
| LruCache.InMemoryLRUResourceCache.Put | src/main/java/com/indoqa/xml/pipeline/sax/InMemoryLRUResourceCache.java:90-93 | a `null` key is an `IllegalArgumentException` and changes nothing; otherwise the entries become `PutEntries` of the old ones, and the keys stay distinct and at most 255 |
| MurmurBuilder.StringBytes | src/main/java/com/indoqa/xml/murmurhash/MurmurHashCodeBuilder.java:55-61 | nothing for `null`, otherwise bytes that decode as UTF-8 to the string's code points |
| MurmurBuilder.Encoding | src/main/java/com/indoqa/xml/murmurhash/MurmurHashCodeBuilder.java:45-53 | an `int` adds four bytes and a `long` eight |
| MurmurBuilder.AccumulatedAppend | src/main/java/com/indoqa/xml/murmurhash/MurmurHashCodeBuilder.java:38-41 | one more append adds its encoding after the bytes held so far |
| MurmurBuilder.AccumulatedSplit | src/main/java/com/indoqa/xml/murmurhash/MurmurHashCodeBuilder.java:33-61 | the bytes of two runs of appends are the bytes of the first followed by those of the second |
| MurmurBuilder.IntAppendReadsBack | src/main/java/com/indoqa/xml/murmurhash/MurmurHashCodeBuilder.java:45-47 | the four bytes `append(int)` adds read back, big-endian and in two's complement, to the value |
| MurmurBuilder.LongAppendReadsBack | src/main/java/com/indoqa/xml/murmurhash/MurmurHashCodeBuilder.java:49-53 | the eight bytes `append(long)` adds read back, big-endian and in two's complement, to the value |
| MurmurBuilder.ArrayCopy | src/main/java/com/indoqa/xml/murmurhash/MurmurHashCodeBuilder.java:39-40 | `System.arraycopy`: the copied range equals the source range and the rest of the destination is unchanged |
| MurmurBuilder.Joined | src/main/java/com/indoqa/xml/murmurhash/MurmurHashCodeBuilder.java:38-40 | a fresh array holding the old bytes followed by the new ones |
| MurmurBuilder.MurmurHashCodeBuilder.constructor | src/main/java/com/indoqa/xml/murmurhash/MurmurHashCodeBuilder.java:29-31 | no bytes |
| MurmurBuilder.MurmurHashCodeBuilder.AppendBytes | src/main/java/com/indoqa/xml/murmurhash/MurmurHashCodeBuilder.java:33-43 | `null` changes nothing; any other array is copied after the bytes held into a fresh array; the builder itself is returned |
| MurmurBuilder.MurmurHashCodeBuilder.AppendInt | src/main/java/com/indoqa/xml/murmurhash/MurmurHashCodeBuilder.java:45-47 | the four big-endian bytes of the value are appended |
| MurmurBuilder.MurmurHashCodeBuilder.AppendLong | src/main/java/com/indoqa/xml/murmurhash/MurmurHashCodeBuilder.java:49-53 | the eight big-endian bytes of the value are appended |
| MurmurBuilder.MurmurHashCodeBuilder.AppendString | src/main/java/com/indoqa/xml/murmurhash/MurmurHashCodeBuilder.java:55-61 | `null` changes nothing; any other string appends its UTF-8 bytes |
| MurmurBuilder.MurmurHashCodeBuilder.GetBytes | src/main/java/com/indoqa/xml/murmurhash/MurmurHashCodeBuilder.java:67-69 | the array holding every byte appended so far, in order |
| SaxEvents.CharactersTextAppend | src/main/java/com/indoqa/xml/sax/SAXBuffer.java:239-251 | the text of two runs of events is the text of the first followed by that of the second |
| SaxBuffers.Recorded | src/main/java/com/indoqa/xml/sax/SAXBuffer.java:182-184 | the locator is not recorded; every other event is recorded as exactly one bit |
| SaxBuffers.Send | src/main/java/com/indoqa/xml/sax/SAXBuffer.java:316-320 | a lexical bit reaches only a lexical handler, any other event bit reaches every handler, and a parameter bit sends nothing |
| SaxBuffers.ReplayAppend | src/main/java/com/indoqa/xml/sax/SAXBuffer.java:229-234 | replaying two runs of bits sends the events of the first, then those of the second |
| SaxBuffers.TextAppend | src/main/java/com/indoqa/xml/sax/SAXBuffer.java:239-251 | the text of two runs of bits is the text of the first followed by that of the second |
| SaxBuffers.ReplayOne | src/main/java/com/indoqa/xml/sax/SAXBuffer.java:229-234 | replaying the bits of one event gives that event, except the locator and, for a non-lexical handler, a lexical event |
| SaxBuffers.ReplayRecorded | src/main/java/com/indoqa/xml/sax/SAXBuffer.java:88-234 | recording a stream of events and replaying the buffer gives back the stream in arrival order, less the locator and, for a non-lexical handler, the lexical events |
| SaxBuffers.VisibleToLexical | src/main/java/com/indoqa/xml/sax/SAXBuffer.java:229-234 | a lexical handler gets back every recorded event |
| SaxBuffers.TextRecorded | src/main/java/com/indoqa/xml/sax/SAXBuffer.java:239-251 | `toString` of a recording is the concatenated text of the recorded `characters` events only |
| SaxBuffers.SAXBuffer.constructor | src/main/java/com/indoqa/xml/sax/SAXBuffer.java:65-67 | an empty buffer |
| SaxBuffers.SAXBuffer.Copy | src/main/java/com/indoqa/xml/sax/SAXBuffer.java:79-81 | the copy starts with the other buffer's bits, and later changes to either do not reach the other |
| SaxBuffers.SAXBuffer.Handle | src/main/java/com/indoqa/xml/sax/SAXBuffer.java:88-223 | each callback appends the bits `Recorded` gives for its event, one per event and none for the locator |
| SaxBuffers.SAXBuffer.CharactersSlice | src/main/java/com/indoqa/xml/sax/SAXBuffer.java:277-281 | the bit holds a copy of exactly the slice `[start, start + length)` |
| SaxBuffers.SAXBuffer.Recycle | src/main/java/com/indoqa/xml/sax/SAXBuffer.java:170-172 | no bits are left |
| SaxBuffers.SAXBuffer.IsEmpty | src/main/java/com/indoqa/xml/sax/SAXBuffer.java:158-160 | `true` exactly when there are no bits |
| SaxBuffers.SAXBuffer.ToSax | src/main/java/com/indoqa/xml/sax/SAXBuffer.java:229-234 | the events `Replay` gives for the bits, in recorded order |
| SaxBuffers.SAXBuffer.ToText | src/main/java/com/indoqa/xml/sax/SAXBuffer.java:239-251 | the text `Text` gives for the bits |
| ParamSaxBuffers.IndexFromFirst | src/main/java/com/indoqa/xml/sax/ParamSAXBuffer.java:78-83 | the scan finds the first occurrence of the character, and finds nothing only when there is none |
| ParamSaxBuffers.CharsBits | src/main/java/com/indoqa/xml/sax/ParamSAXBuffer.java:71-73 | text before a `{` is recorded as one characters bit when it is not empty, and as nothing when it is |
| ParamSaxBuffers.SplitPlain | src/main/java/com/indoqa/xml/sax/ParamSAXBuffer.java:68-104 | text without `{` becomes one characters bit holding all of it, and nothing is carried over |
| ParamSaxBuffers.SplitAt | src/main/java/com/indoqa/xml/sax/ParamSAXBuffer.java:69-97 | a complete `{name}` becomes a parameter bit, after the characters bit of the text before it and before the bits of the text after it |
| ParamSaxBuffers.SplitOpen | src/main/java/com/indoqa/xml/sax/ParamSAXBuffer.java:84-91 | a `{` without a closing `}` ends the bits, and the text from it on is carried over |
| ParamSaxBuffers.SplitRoundTrip | src/main/java/com/indoqa/xml/sax/ParamSAXBuffer.java:68-104 | nothing is lost or invented: the bits, with each parameter spelled `{name}`, followed by the carried-over text, spell out the input |
| ParamSaxBuffers.SplitShape | src/main/java/com/indoqa/xml/sax/ParamSAXBuffer.java:68-104 | characters bits are never empty and hold no `{`, parameter names hold no `}`, and carried-over text starts at a `{` with no `}` after it |
| ParamSaxBuffers.ParameterName | src/main/java/com/indoqa/xml/sax/ParamSAXBuffer.java:76-83 | the name is the text up to the first `}`, which is where the scan stops, or the end of the text when there is none |
| ParamSaxBuffers.ParamReplayAppend | src/main/java/com/indoqa/xml/sax/ParamSAXBuffer.java:165-173 | with a map, the replay of two runs of bits is the replay of the first followed by that of the second, and it never throws |
| ParamSaxBuffers.ParamReplayParameter | src/main/java/com/indoqa/xml/sax/ParamSAXBuffer.java:202-207 | a parameter bit replays the buffer passed under its name, or nothing when no buffer is passed under it |
| ParamSaxBuffers.ParamReplayPlain | src/main/java/com/indoqa/xml/sax/ParamSAXBuffer.java:165-173 | bits without parameters replay as a plain `SAXBuffer` does, whatever map is passed |
| ParamSaxBuffers.ParamReplayWithoutMap | src/main/java/com/indoqa/xml/sax/ParamSAXBuffer.java:202-203 | without a map the replay throws a `NullPointerException` exactly when there is a parameter bit |
| ParamSaxBuffers.ParamSAXBuffer.constructor | src/main/java/com/indoqa/xml/sax/ParamSAXBuffer.java:40-42 | no bits and no carried-over text |
| ParamSaxBuffers.ParamSAXBuffer.Of | src/main/java/com/indoqa/xml/sax/ParamSAXBuffer.java:44-46 | the bits of the given buffer and no carried-over text |
| ParamSaxBuffers.ParamSAXBuffer.CharactersSlice | src/main/java/com/indoqa/xml/sax/ParamSAXBuffer.java:52-105 | the carried-over text followed by the slice is split: its bits are appended and an unclosed `{` is carried over again |
| ParamSaxBuffers.ParamSAXBuffer.Scan | src/main/java/com/indoqa/xml/sax/ParamSAXBuffer.java:65-104 | the loop appends exactly the bits `Split` gives and carries over exactly what it gives |
| ParamSaxBuffers.ParamSAXBuffer.Handle | src/main/java/com/indoqa/xml/sax/ParamSAXBuffer.java:107-181 | structural events first record carried-over text as a characters bit; other events are recorded without touching it |
| ParamSaxBuffers.ParamSAXBuffer.Recycle | src/main/java/com/indoqa/xml/sax/SAXBuffer.java:170-172 | the bits are emptied; the carried-over text, a field of the subclass, is kept |
| ParamSaxBuffers.ParamSAXBuffer.ToSax | src/main/java/com/indoqa/xml/sax/ParamSAXBuffer.java:165-173 | the events and the outcome `ParamReplay` gives |
| SaxTransformers.Record | src/main/java/com/indoqa/xml/pipeline/sax/AbstractSAXTransformer.java:256-258 | a recorder stays the kind it is: a SAX recorder logs the event, a text recorder collects `characters` text instead |
| SaxTransformers.Deliver | src/main/java/com/indoqa/xml/pipeline/sax/AbstractSAXTransformer.java:41-136 | an event reaches the current consumer, and a transformer without one throws a `NullPointerException` and changes nothing |
| SaxTransformers.StartMappings | src/main/java/com/indoqa/xml/pipeline/sax/AbstractSAXTransformer.java:197-203 | one `startPrefixMapping` per list entry |
| SaxTransformers.EndMappings | src/main/java/com/indoqa/xml/pipeline/sax/AbstractSAXTransformer.java:208-214 | one `endPrefixMapping` per list entry |
| SaxTransformers.LastIndex | src/main/java/com/indoqa/xml/pipeline/sax/AbstractSAXTransformer.java:69-76 | an index whose entry has the prefix |
| SaxTransformers.LastIndexSpec | src/main/java/com/indoqa/xml/pipeline/sax/AbstractSAXTransformer.java:69-76 | the backward search finds nothing exactly when no entry has the prefix, and otherwise the most recently added entry for it |
| SaxTransformers.FirstPrefixSpec | src/main/java/com/indoqa/xml/pipeline/sax/AbstractSAXTransformer.java:90-100 | `findPrefixMapping` is `null` exactly when no entry has the URI, and otherwise the prefix of the earliest-added entry with that URI |
| SaxTransformers.FirstPrefixPushed | src/main/java/com/indoqa/xml/pipeline/sax/AbstractSAXTransformer.java:138-141 | a newly pushed entry is found by a URI lookup only when no earlier entry has that URI |
| SaxTransformers.EndUndoesStart | src/main/java/com/indoqa/xml/pipeline/sax/AbstractSAXTransformer.java:65-83 | `endPrefixMapping` of the prefix `startPrefixMapping` just pushed restores the list |
| SaxTransformers.UnknownPrefix | src/main/java/com/indoqa/xml/pipeline/sax/AbstractSAXTransformer.java:77-79 | an unknown prefix throws a `SAXException`; nothing changes and nothing is forwarded |
| SaxTransformers.KnownPrefix | src/main/java/com/indoqa/xml/pipeline/sax/AbstractSAXTransformer.java:69-82 | a known prefix removes its latest entry and only that one, then forwards the event |
| SaxTransformers.DeliverAllStep | src/main/java/com/indoqa/xml/pipeline/sax/AbstractSAXTransformer.java:197-214 | the forwarding loop stops at the first event that throws |
| SaxTransformers.DeliverAllAdapter | src/main/java/com/indoqa/xml/pipeline/sax/AbstractSAXTransformer.java:162-164 | into a recorder nothing throws and only the recorder changes |
| SaxTransformers.OnEventsPlain | src/main/java/com/indoqa/xml/pipeline/sax/AbstractSAXTransformer.java:41-136 | callbacks other than the prefix ones are forwarded as they are |
| SaxTransformers.RecordEachSax | src/main/java/com/indoqa/xml/pipeline/sax/AbstractSAXTransformer.java:181-183 | a SAX recorder logs exactly what a `SAXBuffer` would |
| SaxTransformers.RecordEachText | src/main/java/com/indoqa/xml/pipeline/sax/AbstractSAXTransformer.java:244-258 | a text recorder collects exactly the text of the `characters` events |
| SaxTransformers.MappingsHaveNoText | src/main/java/com/indoqa/xml/pipeline/sax/AbstractSAXTransformer.java:197-214 | the replayed prefix mappings add no text |
| SaxTransformers.SecondRecorder | src/main/java/com/indoqa/xml/pipeline/sax/AbstractSAXTransformer.java:155-158 | setting a recorder while one is active throws a `ProcessingException` and changes nothing |
| SaxTransformers.StartRecordingOpens | src/main/java/com/indoqa/xml/pipeline/sax/AbstractSAXTransformer.java:181-184 | a recording starts with the open prefix mappings replayed into the new recorder, the original consumer saved |
| SaxTransformers.EndRecordingCloses | src/main/java/com/indoqa/xml/pipeline/sax/AbstractSAXTransformer.java:189-192 | ending a recording closes the open prefix mappings into the recorder and restores the original consumer |
| SaxTransformers.SaxRecordingRoundTrip | src/main/java/com/indoqa/xml/pipeline/sax/AbstractSAXTransformer.java:181-192 | a whole SAX recording gives back the opening mappings, the recorded events and the closing mappings, and the consumer is restored |
| SaxTransformers.TextRecordingCollects | src/main/java/com/indoqa/xml/pipeline/sax/AbstractSAXTransformer.java:219-236 | a whole text recording ends with a text recorder holding the text of the recorded `characters` events |
| SaxTransformers.TextRecordingRoundTrip | src/main/java/com/indoqa/xml/pipeline/sax/AbstractSAXTransformer.java:232-265 | `endTextRecording` returns that text, trimmed, and restores the consumer |
| SaxTransformers.TextEndOfSaxRecording | src/main/java/com/indoqa/xml/pipeline/sax/AbstractSAXTransformer.java:232-235 | ending a text recording on a SAX recording throws a `ClassCastException` after the consumer is restored |
| SaxTransformers.SAXTransformer.constructor | src/main/java/com/indoqa/xml/pipeline/sax/AbstractSAXTransformer.java:146-148 | connected to the given consumer, no prefixes bound, not recording |
| SaxTransformers.SAXTransformer.Forward | src/main/java/com/indoqa/xml/pipeline/sax/AbstractSAXTransformer.java:41-136 | the state and outcome `Deliver` gives |
| SaxTransformers.SAXTransformer.StartPrefixMapping | src/main/java/com/indoqa/xml/pipeline/sax/AbstractSAXTransformer.java:138-144 | the state and outcome `OnStartPrefix` gives: a non-null prefix is pushed, a `null` one only forwarded |
| SaxTransformers.SAXTransformer.LastIndexOf | src/main/java/com/indoqa/xml/pipeline/sax/AbstractSAXTransformer.java:69-76 | the loop finds the index `LastIndex` gives |
| SaxTransformers.SAXTransformer.EndPrefixMapping | src/main/java/com/indoqa/xml/pipeline/sax/AbstractSAXTransformer.java:65-83 | the state and outcome `OnEndPrefix` gives |
| SaxTransformers.SAXTransformer.Handle | src/main/java/com/indoqa/xml/pipeline/sax/AbstractSAXTransformer.java:41-144 | the state and outcome `OnEvent` gives |
| SaxTransformers.SAXTransformer.FindPrefixMapping | src/main/java/com/indoqa/xml/pipeline/sax/AbstractSAXTransformer.java:90-100 | the loop finds the prefix `FirstPrefix` gives |
| SaxTransformers.SAXTransformer.SendStartPrefixMapping | src/main/java/com/indoqa/xml/pipeline/sax/AbstractSAXTransformer.java:197-203 | the open mappings are delivered in list order |
| SaxTransformers.SAXTransformer.SendEndPrefixMapping | src/main/java/com/indoqa/xml/pipeline/sax/AbstractSAXTransformer.java:208-214 | the open mappings are closed in list order |
| SaxTransformers.SAXTransformer.DeliverEach | src/main/java/com/indoqa/xml/pipeline/sax/AbstractSAXTransformer.java:198-202 | the loop delivers the events one by one, stopping at the first that throws |
| SaxTransformers.SAXTransformer.SetRecorder | src/main/java/com/indoqa/xml/pipeline/sax/AbstractSAXTransformer.java:155-165 | the state and outcome `Installed` gives |
| SaxTransformers.SAXTransformer.RemoveRecorder | src/main/java/com/indoqa/xml/pipeline/sax/AbstractSAXTransformer.java:170-175 | the state and result `Removed` gives |
| SaxTransformers.SAXTransformer.StartSAXRecording | src/main/java/com/indoqa/xml/pipeline/sax/AbstractSAXTransformer.java:181-184 | a recording into a fresh `SAXBuffer` starts |
| SaxTransformers.SAXTransformer.StartTextRecording | src/main/java/com/indoqa/xml/pipeline/sax/AbstractSAXTransformer.java:219-225 | a recording into a fresh text recorder starts |
| SaxTransformers.SAXTransformer.EndSAXRecording | src/main/java/com/indoqa/xml/pipeline/sax/AbstractSAXTransformer.java:189-192 | the state and result `SaxRecordingEnded` gives |
| SaxTransformers.SAXTransformer.EndTextRecording | src/main/java/com/indoqa/xml/pipeline/sax/AbstractSAXTransformer.java:232-241 | the state and result `TextRecordingEnded` gives |
| SaxEventsBuilders.AttributeOf | src/main/java/com/indoqa/xml/pipeline/sax/SAXEventsBuilder.java:43-45 | the attribute keeps the given names and type, and a `null` value is the text `null` |
| SaxEventsBuilders.NamedAttribute | src/main/java/com/indoqa/xml/pipeline/sax/SAXEventsBuilder.java:39-41 | no namespace, the name as both local and qualified name, and type `CDATA` |
| SaxEventsBuilders.StartLocal | src/main/java/com/indoqa/xml/pipeline/sax/SAXEventsBuilder.java:68-70 | `start(localName, ...)` emits one `startElement` with no namespace and the local name as qualified name; the child builder it returns remembers `b`, and its `end()` closes that same element and gives `b` back |
| SaxEventsBuilders.StartThenEnd | src/main/java/com/indoqa/xml/pipeline/sax/SAXEventsBuilder.java:72-100 | `end()` after `start(...)` emits the matching `endElement` and returns the builder `start` was called on |
| SaxEventsBuilders.EmitWrites | src/main/java/com/indoqa/xml/pipeline/sax/SAXEventsBuilder.java:72-100 | a properly nested chain emits the tree's events in document order and ends on the builder it started from |
| SaxEventsBuilders.EmitAllWrites | src/main/java/com/indoqa/xml/pipeline/sax/SAXEventsBuilder.java:72-100 | a run of sibling chains emits their trees' events in order |
| SaxEventsBuilders.NestEvents | src/test/java/com/indoqa/xml/pipeline/sax/SAXEventsBuilderTestCase.java:43-82 | a tree's events leave the stack of open elements as they found it |
| SaxEventsBuilders.TreeBalanced | src/test/java/com/indoqa/xml/pipeline/sax/SAXEventsBuilderTestCase.java:43-82 | the events of any tree are balanced |
| SaxEventsBuilders.DocumentWrites | src/main/java/com/indoqa/xml/pipeline/sax/SAXEventsBuilder.java:30-33 | `newDocument`, a properly nested chain and `endDocument` give `startDocument`, the tree's events and `endDocument` |
| Tokenizers.Find | src/main/java/com/indoqa/xml/pipeline/sax/VariableExpressionTokenizer.java:144-148 | the position found is at or after the start, holds the character sought when within the string, and is the length when there is none |
| Tokenizers.FindFirst | src/main/java/com/indoqa/xml/pipeline/sax/VariableExpressionTokenizer.java:144-148 | no occurrence of the character lies between the start and the position found |
| Tokenizers.FindIs | src/main/java/com/indoqa/xml/pipeline/sax/VariableExpressionTokenizer.java:144-148 | a position holding the character with none before it back to the start is the one found |
| Tokenizers.IndexOf | src/main/java/com/indoqa/xml/pipeline/sax/VariableExpressionTokenizer.java:144-148 | the first occurrence of the character after the current position, or the length when there is none: every character strictly between is a different one |
| Tokenizers.TextFrom | src/main/java/com/indoqa/xml/pipeline/sax/VariableExpressionTokenizer.java:78-81 | the pending text is handed over as one TEXT token exactly when it is not empty |
| Tokenizers.OpenStep | src/main/java/com/indoqa/xml/pipeline/sax/VariableExpressionTokenizer.java:77-107 | a '{' either aborts or moves the scan forward without an escape pending |
| Tokenizers.CloseStep | src/main/java/com/indoqa/xml/pipeline/sax/VariableExpressionTokenizer.java:108-121 | a '}', whether skipped after a backslash or closing a reference, never aborts and moves the scan past the brace |
| Tokenizers.Step | src/main/java/com/indoqa/xml/pipeline/sax/VariableExpressionTokenizer.java:65-131 | one turn of the loop either aborts or moves the scan strictly forward, so the scan ends |
| Tokenizers.Finish | src/main/java/com/indoqa/xml/pipeline/sax/VariableExpressionTokenizer.java:134-141 | after the loop the tokens handed over are kept; it fails exactly when the OPEN and CLOSE counters differ, with a `ParseException` at the length of the expression |
| Tokenizers.Run | src/main/java/com/indoqa/xml/pipeline/sax/VariableExpressionTokenizer.java:65-141 | the loop and its end: the tokens handed over start with those the scan already had, and the only exceptions are a `ParseException` and the index-out-of-bounds error |
| Tokenizers.Tokenization | src/main/java/com/indoqa/xml/pipeline/sax/VariableExpressionTokenizer.java:49-142 | `tokenize` of an expression fails only with a `ParseException` or the index-out-of-bounds error |
| Tokenizers.RunStep | src/main/java/com/indoqa/xml/pipeline/sax/VariableExpressionTokenizer.java:65-131 | the whole scan from a position is the abort of that turn or the scan from where that turn leaves it |
| Tokenizers.RunDone | src/main/java/com/indoqa/xml/pipeline/sax/VariableExpressionTokenizer.java:134-141 | at the end of the expression the scan hands over the trailing text and then checks the brace counts |
| Tokenizers.Advance | src/main/java/com/indoqa/xml/pipeline/sax/VariableExpressionTokenizer.java:65-131 | a turn that continues leaves the outcome of the scan unchanged |
| Tokenizers.OpenBrace | src/main/java/com/indoqa/xml/pipeline/sax/VariableExpressionTokenizer.java:77-107 | the '{' branch of the loop computes exactly the turn OpenStep describes |
| Tokenizers.CloseBrace | src/main/java/com/indoqa/xml/pipeline/sax/VariableExpressionTokenizer.java:108-121 | the '}' branch of the loop computes exactly the turn CloseStep describes |
| Tokenizers.LoopBody | src/main/java/com/indoqa/xml/pipeline/sax/VariableExpressionTokenizer.java:65-131 | one pass of the loop body computes exactly the turn Step describes |
| Tokenizers.Tokenize | src/main/java/com/indoqa/xml/pipeline/sax/VariableExpressionTokenizer.java:49-142 | the loop hands the handler exactly the tokens of the scan and ends with exactly its error, if any |
| Tokenizers.PlainShift | src/main/java/com/indoqa/xml/pipeline/sax/VariableExpressionTokenizer.java:65-131 | a brace-free stretch stays brace-free inside any longer expression |
| Tokenizers.PlainRun | src/main/java/com/indoqa/xml/pipeline/sax/VariableExpressionTokenizer.java:65-131 | a brace-free stretch is skipped without handing anything over |
| Tokenizers.PlainText | src/main/java/com/indoqa/xml/pipeline/sax/VariableExpressionTokenizer.java:134-137 | an expression without braces is one TEXT token, or nothing when empty, and no error |
| Tokenizers.VariableReference | src/main/java/com/indoqa/xml/pipeline/sax/VariableExpressionTokenizer.java:77-121 | "{name}" is OPEN, VARIABLE(name), CLOSE with no error |
| Tokenizers.ModuleHead | src/main/java/com/indoqa/xml/pipeline/sax/VariableExpressionTokenizer.java:95-99 | in "{m:x}" the scan reaches the colon having emitted OPEN and MODULE(m) |
| Tokenizers.ModuleTail | src/main/java/com/indoqa/xml/pipeline/sax/VariableExpressionTokenizer.java:122-131 | after the colon of a module reference come COLON, the text if any, and CLOSE |
| Tokenizers.ModuleReference | src/main/java/com/indoqa/xml/pipeline/sax/VariableExpressionTokenizer.java:95-131 | "{m:x}" is OPEN, MODULE(m), COLON, TEXT(x) when x is not empty, CLOSE, with no error |
| Tokenizers.NestedModuleReference | src/main/java/com/indoqa/xml/pipeline/sax/VariableExpressionTokenizer.java:95-131 | the nested expression (supported per the class comment, lines 19-20) "{a:{b:c}}" is OPEN, MODULE(a), COLON, OPEN, MODULE(b), COLON, TEXT(c), CLOSE, CLOSE, with no error |
| Tokenizers.PlainPrefix | src/main/java/com/indoqa/xml/pipeline/sax/VariableExpressionTokenizer.java:65-131 | a brace-free prefix is scanned up to its end without handing anything over |
| Tokenizers.OpenAborts | src/main/java/com/indoqa/xml/pipeline/sax/VariableExpressionTokenizer.java:85-93 | a '{' whose next brace or colon is another '{' hands over the pending text and OPEN, then fails with a parse error at its position |
| Tokenizers.NestedOpen | src/main/java/com/indoqa/xml/pipeline/sax/VariableExpressionTokenizer.java:85-93 | "t{...{" with no colon or '}' in between is TEXT(t), OPEN and a parse error at the first '{' |
| Tokenizers.NestedIndices | src/main/java/com/indoqa/xml/pipeline/sax/VariableExpressionTokenizer.java:85-93 | in such an expression the next '{' comes before the next ':' and the next '}' |
| Tokenizers.UnclosedReference | src/main/java/com/indoqa/xml/pipeline/sax/VariableExpressionTokenizer.java:100-141 | "{name" with no '}' is OPEN, VARIABLE(name) and then a parse error at the end of the expression |
| Tokenizers.UnopenedClose | src/main/java/com/indoqa/xml/pipeline/sax/VariableExpressionTokenizer.java:108-121 | a '}' with no '{' before it hands over the text and CLOSE, then fails with a parse error at the end because the counts differ |
| Tokenizers.TrailingBackslash | src/main/java/com/indoqa/xml/pipeline/sax/VariableExpressionTokenizer.java:68-72 | a backslash as the last character makes the look-ahead read past the end: the scan fails with an index-out-of-bounds error |
| Tokenizers.EscapeHead | src/main/java/com/indoqa/xml/pipeline/sax/VariableExpressionTokenizer.java:68-76 | before an escaped brace the scan drops the backslash and steps over the brace |
| Tokenizers.EscapeTail | src/main/java/com/indoqa/xml/pipeline/sax/VariableExpressionTokenizer.java:68-76 | after an escaped brace the rest of a brace-free expression joins the same text |
| Tokenizers.EscapedBrace | src/main/java/com/indoqa/xml/pipeline/sax/VariableExpressionTokenizer.java:68-76 | "t1\{t2" and "t1\}t2" are one TEXT token without the backslash and no error |
| Tokenizers.CountAppend | src/main/java/com/indoqa/xml/pipeline/sax/VariableExpressionTokenizer.java:139-141 | the number of tokens of a kind in two runs of tokens is the sum of the two counts |
| Tokenizers.CountPush | src/main/java/com/indoqa/xml/pipeline/sax/VariableExpressionTokenizer.java:139-141 | one more token adds one to its own kind's count and nothing to the others |
| Tokenizers.TextCounts | src/main/java/com/indoqa/xml/pipeline/sax/VariableExpressionTokenizer.java:78-81 | handing over text changes neither the OPEN nor the CLOSE count |
| Tokenizers.OpenCounted | src/main/java/com/indoqa/xml/pipeline/sax/VariableExpressionTokenizer.java:77-107 | the counter of opened braces agrees with the OPEN tokens after a '{' |
| Tokenizers.CloseCounted | src/main/java/com/indoqa/xml/pipeline/sax/VariableExpressionTokenizer.java:108-121 | the counter of closed braces agrees with the CLOSE tokens after a '}' |
| Tokenizers.StepCounted | src/main/java/com/indoqa/xml/pipeline/sax/VariableExpressionTokenizer.java:65-131 | every turn keeps the two counters equal to the numbers of OPEN and CLOSE tokens |
| Tokenizers.RunBalanced | src/main/java/com/indoqa/xml/pipeline/sax/VariableExpressionTokenizer.java:139-141 | a scan that ends without error has handed over as many OPEN as CLOSE tokens |
| Tokenizers.TokenizationBalanced | src/main/java/com/indoqa/xml/pipeline/sax/VariableExpressionTokenizer.java:139-141 | every expression tokenized without error has as many OPEN as CLOSE tokens |
| CleaningTransformers.Flush | src/main/java/com/indoqa/xml/pipeline/sax/component/CleaningTransformer.java:99-114 | the pending text goes out as one characters event exactly when it holds a character that is not whitespace or is a no-break space |
| CleaningTransformers.StepCleaned | src/main/java/com/indoqa/xml/pipeline/sax/component/CleaningTransformer.java:37-97 | whatever one event produces has no prefix mappings and no comments, unqualified element names, and only text with content |
| CleaningTransformers.CleanOutputCleaned | src/main/java/com/indoqa/xml/pipeline/sax/component/CleaningTransformer.java:37-114 | the whole output of the transformer has those properties, for every input stream |
| CleaningTransformers.ElementsAppend | src/main/java/com/indoqa/xml/pipeline/sax/component/CleaningTransformer.java:53-78 | the element events of two streams in a row are those of the first followed by those of the second |
| CleaningTransformers.UnqualifiedAll | src/main/java/com/indoqa/xml/pipeline/sax/component/CleaningTransformer.java:70 | dropping the namespace from every element event keeps the length and goes event by event |
| CleaningTransformers.StepElements | src/main/java/com/indoqa/xml/pipeline/sax/component/CleaningTransformer.java:53-78 | one event yields its own element event, if any, with the namespace dropped and the local name as qualified name |
| CleaningTransformers.UnqualifiedAppend | src/main/java/com/indoqa/xml/pipeline/sax/component/CleaningTransformer.java:53-78 | dropping namespaces distributes over concatenation |
| CleaningTransformers.CleanElements | src/main/java/com/indoqa/xml/pipeline/sax/component/CleaningTransformer.java:53-78 | the element events out are the element events in, unqualified, in the same order, none lost and none added |
| CleaningTransformers.CleanCons | src/main/java/com/indoqa/xml/pipeline/sax/component/CleaningTransformer.java:37-97 | a stream is cleaned event by event, the pending text carried along |
| CleaningTransformers.CleanTwo | src/main/java/com/indoqa/xml/pipeline/sax/component/CleaningTransformer.java:37-97 | two events are cleaned one after the other |
| CleaningTransformers.CharactersCollect | src/main/java/com/indoqa/xml/pipeline/sax/component/CleaningTransformer.java:81-97 | consecutive characters events produce nothing and collect their text |
| CleaningTransformers.BoundaryFlushes | src/main/java/com/indoqa/xml/pipeline/sax/component/CleaningTransformer.java:74-78 | the collected text goes out, when it has content, just before the end tag that follows it |
| CleaningTransformers.WhitespaceDropped | src/main/java/com/indoqa/xml/pipeline/sax/component/CleaningTransformer.java:99-114 | text made only of whitespace other than no-break spaces before a start tag is dropped |
| CleaningTransformers.CleaningTransformer.constructor | src/main/java/com/indoqa/xml/pipeline/sax/component/CleaningTransformer.java:34-35 | a new transformer has an 8192-character buffer, no pending text and no output |
| CleaningTransformers.CleaningTransformer.StartPrefixMapping | src/main/java/com/indoqa/xml/pipeline/sax/component/CleaningTransformer.java:37-40 | a prefix mapping start produces nothing and keeps the pending text |
| CleaningTransformers.CleaningTransformer.EndPrefixMapping | src/main/java/com/indoqa/xml/pipeline/sax/component/CleaningTransformer.java:42-45 | a prefix mapping end produces nothing and keeps the pending text |
| CleaningTransformers.CleaningTransformer.Comment | src/main/java/com/indoqa/xml/pipeline/sax/component/CleaningTransformer.java:47-50 | a comment produces nothing and keeps the pending text |
| CleaningTransformers.CleaningTransformer.Characters | src/main/java/com/indoqa/xml/pipeline/sax/component/CleaningTransformer.java:81-97 | the slice is appended to the pending text; a slice outside the array fails with an index-out-of-bounds error; a buffer without room is replaced by one larger by the slice length plus 1000 |
| CleaningTransformers.CleaningTransformer.MaybeWriteCharacters | src/main/java/com/indoqa/xml/pipeline/sax/component/CleaningTransformer.java:99-114 | the pending text is written out when it has content and is emptied in every case |
| CleaningTransformers.CleaningTransformer.StartElement | src/main/java/com/indoqa/xml/pipeline/sax/component/CleaningTransformer.java:53-71 | the pending text is flushed, then the start tag goes out without namespace, with the local name as qualified name and the attributes as received |
| CleaningTransformers.CleaningTransformer.EndElement | src/main/java/com/indoqa/xml/pipeline/sax/component/CleaningTransformer.java:74-78 | the pending text is flushed, then the end tag goes out without namespace |
| CleaningTransformers.CleaningTransformer.Forward | src/main/java/com/indoqa/xml/pipeline/sax/component/CleaningTransformer.java:30 | every other event goes to the next handler unchanged and keeps the pending text |
| CleaningTransformers.CleaningTransformer.Handle | src/main/java/com/indoqa/xml/pipeline/sax/component/CleaningTransformer.java:37-114 | each event changes the output and the pending text exactly as the event-by-event function says |
| CleaningTransformers.ConstructCacheKey | src/main/java/com/indoqa/xml/pipeline/sax/component/CleaningTransformer.java:116-118 | the cache key is a simple key, valid for every other key |
| LinkRewriters.HashCode | src/main/java/com/indoqa/xml/pipeline/sax/component/AbstractLinkRewriterTransformer.java:206-211 | the hash code of a name is a Java int computed from the local name alone |
| LinkRewriters.MatchesSymmetric | src/main/java/com/indoqa/xml/pipeline/sax/component/AbstractLinkRewriterTransformer.java:173-196 | two names are equal in one direction exactly when they are in the other |
| LinkRewriters.MatchingHashAlike | src/main/java/com/indoqa/xml/pipeline/sax/component/AbstractLinkRewriterTransformer.java:173-211 | equal names have equal hash codes, the wildcard namespace included |
| LinkRewriters.MatchesNotTransitive | src/main/java/com/indoqa/xml/pipeline/sax/component/AbstractLinkRewriterTransformer.java:185-188 | the wildcard namespace makes equality non-transitive: "ns1" and "ns2" both equal "*" but not each other |
| LinkRewriters.Lookup | src/main/java/com/indoqa/xml/pipeline/sax/component/AbstractLinkRewriterTransformer.java:66-67 | the key found is the first registered key equal to the one sought, and none is found exactly when no registered key is equal |
| LinkRewriters.AddNameHas | src/main/java/com/indoqa/xml/pipeline/sax/component/AbstractLinkRewriterTransformer.java:73 | after adding an attribute name the set holds it and every name it held before |
| LinkRewriters.RegisteredContains | src/main/java/com/indoqa/xml/pipeline/sax/component/AbstractLinkRewriterTransformer.java:53-74 | a registered element and attribute pair is found again under its own names |
| LinkRewriters.RegisteredKeeps | src/main/java/com/indoqa/xml/pipeline/sax/component/AbstractLinkRewriterTransformer.java:53-74 | registering a pair keeps every pair found before |
| LinkRewriters.WildcardAbsorbed | src/main/java/com/indoqa/xml/pipeline/sax/component/AbstractLinkRewriterTransformer.java:65-73 | an element registered with the wildcard namespace after one with a namespace adds to the earlier entry, so the attribute is found under that namespace only |
| LinkRewriters.SetupIgnores | src/main/java/com/indoqa/xml/pipeline/sax/component/AbstractLinkRewriterTransformer.java:89-106 | parameters that each register nothing leave the registry as it is |
| LinkRewriters.SetupKeeps | src/main/java/com/indoqa/xml/pipeline/sax/component/AbstractLinkRewriterTransformer.java:89-106 | setup only adds: every pair found before is found after |
| LinkRewriters.SetupTwoNames | src/main/java/com/indoqa/xml/pipeline/sax/component/AbstractLinkRewriterTransformer.java:96-99 | an "element..." parameter holding two space-separated names registers that element and attribute in every namespace |
| LinkRewriters.Rewritten | src/main/java/com/indoqa/xml/pipeline/sax/component/AbstractLinkRewriterTransformer.java:119-142 | rewriting keeps the number of attributes |
| LinkRewriters.RewrittenValues | src/main/java/com/indoqa/xml/pipeline/sax/component/AbstractLinkRewriterTransformer.java:119-142 | each attribute keeps its names and type; its value is the rewritten link when its element and attribute are registered and the rewrite succeeds, and is unchanged otherwise |
| LinkRewriters.NothingRegistered | src/main/java/com/indoqa/xml/pipeline/sax/component/AbstractLinkRewriterTransformer.java:119-148 | with nothing registered the attributes pass unchanged |
| LinkRewriters.LinkRewriterTransformer.constructor | src/main/java/com/indoqa/xml/pipeline/sax/component/AbstractLinkRewriterTransformer.java:47 | a new transformer has no registered element and has sent nothing |
| LinkRewriters.LinkRewriterTransformer.AddElement | src/main/java/com/indoqa/xml/pipeline/sax/component/AbstractLinkRewriterTransformer.java:53-74 | a missing element name, then a missing attribute name, is an illegal-argument error that leaves the registry unchanged; otherwise the pair is registered, a missing namespace standing for the empty one |
| LinkRewriters.LinkRewriterTransformer.AddElementAnywhere | src/main/java/com/indoqa/xml/pipeline/sax/component/AbstractLinkRewriterTransformer.java:49-51 | the two-argument form registers the pair with the wildcard namespace on both names |
| LinkRewriters.LinkRewriterTransformer.FindKey | src/main/java/com/indoqa/xml/pipeline/sax/component/AbstractLinkRewriterTransformer.java:66-67 | the search over the registry finds exactly the entry Lookup names |
| LinkRewriters.LinkRewriterTransformer.Setup | src/main/java/com/indoqa/xml/pipeline/sax/component/AbstractLinkRewriterTransformer.java:82-107 | no parameters leave the registry unchanged; otherwise each "element..." parameter with two or four names is registered in turn and any other is ignored |
| LinkRewriters.LinkRewriterTransformer.StartElement | src/main/java/com/indoqa/xml/pipeline/sax/component/AbstractLinkRewriterTransformer.java:109-149 | the start tag goes on with its names and with every registered attribute rewritten, and the registry is unchanged |
| LinkRewriters.LinkRewriterTransformer.ContainsPair | src/main/java/com/indoqa/xml/pipeline/sax/component/AbstractLinkRewriterTransformer.java:154-160 | the check holds exactly when the first equal element entry holds an equal attribute name |
| LinkRewriters.LookupFirst | src/main/java/com/indoqa/xml/pipeline/sax/component/AbstractLinkRewriterTransformer.java:66-67 | a key equal to an entry's with no earlier equal entry finds that entry |
| LinkRewriters.ContainsName | src/main/java/com/indoqa/xml/pipeline/sax/component/AbstractLinkRewriterTransformer.java:159 | the search over a set of names holds exactly when the set has an equal name |
| LinkRewriters.ConstructCacheKey | src/main/java/com/indoqa/xml/pipeline/sax/component/AbstractLinkRewriterTransformer.java:76-79 | the cache key is a simple key, valid for every other key |
| TextSerializers.Recycled | src/main/java/com/indoqa/xml/pipeline/sax/component/TextSerializer.java:107-111 | recycling clears the root-element flag and keeps the wrapper flag |
| TextSerializers.RunCons | src/main/java/com/indoqa/xml/pipeline/sax/component/TextSerializer.java:55-105 | a stream is serialized event by event, the two flags carried along |
| TextSerializers.StepText | src/main/java/com/indoqa/xml/pipeline/sax/component/TextSerializer.java:55-105 | every event passes on exactly the text it carries, the wrapper events adding none |
| TextSerializers.RunText | src/main/java/com/indoqa/xml/pipeline/sax/component/TextSerializer.java:29-31 | the text serialized is exactly the text of the input stream, for every stream and every starting state |
| TextSerializers.RunElements | src/main/java/com/indoqa/xml/pipeline/sax/component/TextSerializer.java:29-31 | no element of the input reaches the output: the only element events are those of the text wrapper |
| TextSerializers.StepInDocument | src/main/java/com/indoqa/xml/pipeline/sax/component/TextSerializer.java:75-105 | an event other than the end of the document opens the wrapper exactly when it is text before any element, and never closes it |
| TextSerializers.WrapperOpenedOnce | src/main/java/com/indoqa/xml/pipeline/sax/component/TextSerializer.java:97-105 | within a document the wrapper is opened at most once, and exactly when text came before every element |
| TextSerializers.StaysOpen | src/main/java/com/indoqa/xml/pipeline/sax/component/TextSerializer.java:97-105 | once the wrapper is open no further event opens or closes another |
| TextSerializers.WrapperBalanced | src/main/java/com/indoqa/xml/pipeline/sax/component/TextSerializer.java:86-105 | from a new serializer, a document with its end has as many wrapper ends as wrapper starts, at most one of each |
| TextSerializers.RunAppendOne | src/main/java/com/indoqa/xml/pipeline/sax/component/TextSerializer.java:55-105 | serializing one more event appends that event's output to what came before |
| TextSerializers.TextWrapped | src/main/java/com/indoqa/xml/pipeline/sax/component/TextSerializer.java:86-105 | text with no root element is written inside a "text" wrapper element that the end of the document closes |
| TextSerializers.RecycleKeepsWrapperEnd | src/main/java/com/indoqa/xml/pipeline/sax/component/TextSerializer.java:107-111 | a serializer recycled after wrapping text closes a wrapper at the end of the next document that it never opened |
| TextSerializers.TextSerializer.constructor | src/main/java/com/indoqa/xml/pipeline/sax/component/TextSerializer.java:49-53 | a new text serializer has no root element, has written nothing, and its format only omits the XML declaration |
| TextSerializers.TextSerializer.Drop | src/main/java/com/indoqa/xml/pipeline/sax/component/TextSerializer.java:55-84 | the document locator, processing instructions, the DTD and end tags produce nothing and change no flag |
| TextSerializers.TextSerializer.StartElement | src/main/java/com/indoqa/xml/pipeline/sax/component/TextSerializer.java:75-79 | a start tag produces nothing and marks the root element as seen |
| TextSerializers.TextSerializer.EndDocument | src/main/java/com/indoqa/xml/pipeline/sax/component/TextSerializer.java:86-92 | the end of the document closes the wrapper first when one was opened |
| TextSerializers.TextSerializer.Characters | src/main/java/com/indoqa/xml/pipeline/sax/component/TextSerializer.java:97-105 | text before any element opens the wrapper and sets both flags; the text is always passed on |
| TextSerializers.TextSerializer.Forward | src/main/java/com/indoqa/xml/pipeline/sax/component/TextSerializer.java:34 | every other event goes to the serializing handler unchanged |
| TextSerializers.TextSerializer.Recycle | src/main/java/com/indoqa/xml/pipeline/sax/component/TextSerializer.java:107-111 | recycling resets the root-element flag only and leaves the output as it is |
| TextSerializers.TextSerializer.Handle | src/main/java/com/indoqa/xml/pipeline/sax/component/TextSerializer.java:55-105 | each event changes the output and the flags exactly as the event-by-event function says |
| TextSerializers.CreatePlainSerializer | src/main/java/com/indoqa/xml/pipeline/sax/component/TextSerializer.java:113-119 | the plain serializer has content type "text/plain; charset=UTF-8" and a format of no XML declaration, UTF-8 and method "text" |
| XmlSerializers.YesNo | src/main/java/com/indoqa/xml/pipeline/sax/component/XMLSerializer.java:133-168 | a flag is written "yes" exactly when it is set and "no" exactly when it is not |
| XmlSerializers.WithDefaultMethod | src/main/java/com/indoqa/xml/pipeline/sax/component/XMLSerializer.java:179-183 | the format gains the method "xml" only when it has no method; every other property is kept |
| XmlSerializers.DefaultMethodIdempotent | src/main/java/com/indoqa/xml/pipeline/sax/component/XMLSerializer.java:179-183 | adding the default method twice has the effect of adding it once |
| XmlSerializers.XMLSerializer.constructor | src/main/java/com/indoqa/xml/pipeline/sax/component/XMLSerializer.java:71-73 | a new serializer has an empty format and no content type |
| XmlSerializers.XMLSerializer.WithFormat | src/main/java/com/indoqa/xml/pipeline/sax/component/XMLSerializer.java:75-83 | a serializer made with a format holds exactly that format |
| XmlSerializers.XMLSerializer.SetFormat | src/main/java/com/indoqa/xml/pipeline/sax/component/XMLSerializer.java:129-131 | the format is replaced as a whole |
| XmlSerializers.XMLSerializer.SetContentType | src/main/java/com/indoqa/xml/pipeline/sax/AbstractSAXSerializer.java:82-84 | the content type is set and the format is kept |
| XmlSerializers.XMLSerializer.PutNonEmpty | src/main/java/com/indoqa/xml/pipeline/sax/component/XMLSerializer.java:93-100 | a missing or empty value is a setup error leaving the format as it is; any other is stored under its key, replacing an earlier value |
| XmlSerializers.XMLSerializer.PutYesNo | src/main/java/com/indoqa/xml/pipeline/sax/component/XMLSerializer.java:133-135 | a flag property is stored as "yes" or "no" under its key |
| XmlSerializers.XMLSerializer.SetCDataSectionElements | src/main/java/com/indoqa/xml/pipeline/sax/component/XMLSerializer.java:93-100 | a missing or empty value is a setup error with its own message; any other is stored as the CDATA-section-elements property |
| XmlSerializers.XMLSerializer.SetDoctypePublic | src/main/java/com/indoqa/xml/pipeline/sax/component/XMLSerializer.java:102-109 | a missing or empty value is a setup error with its own message; any other is stored as the public doctype |
| XmlSerializers.XMLSerializer.SetDoctypeSystem | src/main/java/com/indoqa/xml/pipeline/sax/component/XMLSerializer.java:111-118 | a missing or empty value is a setup error with its own message; any other is stored as the system doctype |
| XmlSerializers.XMLSerializer.SetEncoding | src/main/java/com/indoqa/xml/pipeline/sax/component/XMLSerializer.java:120-127 | a missing or empty value is a setup error with its own message; any other is stored as the encoding |
| XmlSerializers.XMLSerializer.SetMediaType | src/main/java/com/indoqa/xml/pipeline/sax/component/XMLSerializer.java:138-145 | a missing or empty value is a setup error with its own message; any other is stored as the media type |
| XmlSerializers.XMLSerializer.SetMethod | src/main/java/com/indoqa/xml/pipeline/sax/component/XMLSerializer.java:147-154 | a missing or empty value is a setup error with its own message; any other is stored as the output method |
| XmlSerializers.XMLSerializer.SetVersion | src/main/java/com/indoqa/xml/pipeline/sax/component/XMLSerializer.java:190-197 | a missing or empty value is a setup error with its own message; any other is stored as the version |
| XmlSerializers.XMLSerializer.SetIndent | src/main/java/com/indoqa/xml/pipeline/sax/component/XMLSerializer.java:133-136 | the indent property becomes "yes" or "no" |
| XmlSerializers.XMLSerializer.SetOmitXmlDeclaration | src/main/java/com/indoqa/xml/pipeline/sax/component/XMLSerializer.java:156-159 | the omit-XML-declaration property becomes "yes" or "no" |
| XmlSerializers.XMLSerializer.SetStandAlone | src/main/java/com/indoqa/xml/pipeline/sax/component/XMLSerializer.java:166-169 | the standalone property becomes "yes" or "no" |
| XmlSerializers.XMLSerializer.Setup | src/main/java/com/indoqa/xml/pipeline/sax/component/XMLSerializer.java:171-188 | setup adds the default method "xml" when the format has none and changes nothing else |
| XmlSerializers.XMLSerializer.ConstructCacheKey | src/main/java/com/indoqa/xml/pipeline/sax/component/XMLSerializer.java:85-91 | the cache key is a new, writable parameter key holding exactly the format's properties |
| XmlSerializers.NewXMLSerializer | src/main/java/com/indoqa/xml/pipeline/sax/component/XMLSerializer.java:75-83 | a missing format is a setup error; any other is held as it is |
| XmlSerializers.XhtmlPresetFacts | src/main/java/com/indoqa/xml/pipeline/sax/component/XMLSerializer.java:57-65 | the property names of the presets are distinct and their values are not empty, so every preset setter succeeds |
| XmlSerializers.CreateXHTMLSerializer | src/main/java/com/indoqa/xml/pipeline/sax/component/XMLSerializer.java:203-213 | the XHTML preset has content type "text/html;charset=utf-8", the XHTML 1.0 Strict public and system doctypes, UTF-8 and method "xml" |
| XmlSerializers.CreateHTML4Serializer | src/main/java/com/indoqa/xml/pipeline/sax/component/XMLSerializer.java:215-224 | the HTML 4 preset has content type "text/html;charset=utf-8", the HTML 4.01 Transitional public doctype, UTF-8 and method "html" |
| XmlSerializers.CreateXMLSerializer | src/main/java/com/indoqa/xml/pipeline/sax/component/XMLSerializer.java:226-234 | the XML preset has content type "text/xml", UTF-8 and method "xml" |
| DomNamespaces.ScopeOf | src/main/java/com/indoqa/xml/dom/DOMStreamer.java:235-243 | the walk sees a node as an element scope exactly when it is an element and as an entity-reference scope exactly when it is an entity reference; every other node ends the walk |
| DomNamespaces.FirstColon | src/main/java/com/indoqa/xml/dom/DOMStreamer.java:192 | the position returned is the first colon of the name, and there is none exactly when the name has no colon |
| DomNamespaces.PrefixAndLocalName | src/main/java/com/indoqa/xml/dom/DOMStreamer.java:190-201 | a name without a colon has no prefix and is its own local name; otherwise prefix, colon and local name put together give back the name, with no colon in the prefix |
| DomNamespaces.DeclaredPrefix | src/main/java/com/indoqa/xml/dom/DOMStreamer.java:330-332 | the "xmlns" attribute declares the empty prefix, an "xmlns:p" attribute declares p |
| DomNamespaces.AttributeNode | src/main/java/com/indoqa/xml/dom/DOMStreamer.java:237 | the attribute found has the name asked for, and none is found exactly when no attribute has that name |
| DomNamespaces.NamespaceForPrefix | src/main/java/com/indoqa/xml/dom/DOMStreamer.java:217-247 | the "xml" and "xmlns" prefixes always resolve to their fixed namespaces |
| DomNamespaces.ResolveNearest | src/main/java/com/indoqa/xml/dom/DOMStreamer.java:232-244 | when the nearest element up the DOM that declares the prefix does so with a value, that value is found |
| DomNamespaces.ResolveSound | src/main/java/com/indoqa/xml/dom/DOMStreamer.java:232-244 | a value found is the declaration of the nearest element up the DOM that declares it, reached through elements and entity references only |
| DomNamespaces.NamespaceForPrefixNearest | src/main/java/com/indoqa/xml/dom/DOMStreamer.java:217-247 | any other prefix resolves to the value of its nearest declaration up the DOM |
| DomNamespaces.NamespaceForPrefixSound | src/main/java/com/indoqa/xml/dom/DOMStreamer.java:217-247 | any other prefix resolves only to the value of its nearest declaration up the DOM |
| DomNamespaces.Get | src/main/java/com/indoqa/xml/dom/DOMStreamer.java:629-635 | the namespace found is declared for that prefix, and none is found exactly when the prefix is not declared |
| DomNamespaces.Put | src/main/java/com/indoqa/xml/dom/DOMStreamer.java:659-664 | after the put the prefix maps to the namespace and every other prefix maps as before; a new prefix is added at the end, an old one is replaced in place |
| DomNamespaces.GetCons | src/main/java/com/indoqa/xml/dom/DOMStreamer.java:629-635 | the declarations are searched from the first |
| DomNamespaces.GetPrefix | src/main/java/com/indoqa/xml/dom/DOMStreamer.java:640-654 | the prefix found declares that namespace, and none is found exactly when no prefix declares it |
| DomNamespaces.FindNamespaceURINearest | src/main/java/com/indoqa/xml/dom/DOMStreamer.java:597-608 | a prefix resolves to the namespace of its innermost declaration among the open elements |
| DomNamespaces.FindNamespaceURISound | src/main/java/com/indoqa/xml/dom/DOMStreamer.java:597-608 | a namespace found is that innermost declaration, and none is found exactly when no open element declares the prefix |
| DomNamespaces.FindPrefixSound | src/main/java/com/indoqa/xml/dom/DOMStreamer.java:613-624 | a prefix found is declared for the namespace by some open element, and none is found exactly when no open element declares the namespace |
| DomNamespaces.FindTop | src/main/java/com/indoqa/xml/dom/DOMStreamer.java:597-608 | the innermost element is searched first, then its parents |
| DomNamespaces.PutShadows | src/main/java/com/indoqa/xml/dom/DOMStreamer.java:659-664 | a declaration on the innermost element is found first, and every other prefix resolves as before |
| DomNamespaces.LocalUnrolled | src/main/java/com/indoqa/xml/dom/DOMStreamer.java:326-336 | the declarations of an element are collected attribute by attribute, in order |
| DomNamespaces.LastDeclarationWins | src/main/java/com/indoqa/xml/dom/DOMStreamer.java:326-336 | among an element's attributes the last declaration of a prefix is the one that holds |
| DomNamespaces.LaterKeeps | src/main/java/com/indoqa/xml/dom/DOMStreamer.java:326-336 | attributes that do not declare a prefix leave its declaration as it was |
| DomNamespaces.ElementNaming | src/main/java/com/indoqa/xml/dom/DOMStreamer.java:338-349 | a namespace-aware element keeps its own prefix, local name and namespace; otherwise prefix and local name come from splitting its name and the namespace from the DOM |
| DomNamespaces.OrEmpty | src/main/java/com/indoqa/xml/dom/DOMStreamer.java:380-382 | a missing namespace is reported as the empty one |
| DomNamespaces.ElementQName | src/main/java/com/indoqa/xml/dom/DOMStreamer.java:384-389 | the qualified name is the local name when the prefix is missing or blank, and "prefix:localName" otherwise |
| DomNamespaces.ElementBound | src/main/java/com/indoqa/xml/dom/DOMStreamer.java:351-368 | after the element is bound, its prefix resolves to its namespace |
| DomNamespaces.DefaultNamespaceUndeclared | src/main/java/com/indoqa/xml/dom/DOMStreamer.java:369-377 | an element without a namespace leaves the default namespace undeclared or blank |
| DomNamespaces.BindKeepsOthers | src/main/java/com/indoqa/xml/dom/DOMStreamer.java:351-377 | binding the element changes no other non-empty prefix |
| DomNamespaces.GeneratedPrefix | src/main/java/com/indoqa/xml/dom/DOMStreamer.java:440-441 | a generated prefix starts with "NS" |
| DomNamespaces.GeneratedPrefixInjective | src/main/java/com/indoqa/xml/dom/DOMStreamer.java:440-441 | different counter values give different generated prefixes |
| DomNamespaces.AttributeNaming | src/main/java/com/indoqa/xml/dom/DOMStreamer.java:404-423 | a namespace-unaware attribute keeps the prefix of its name, and has no namespace when it has no prefix; a namespace-aware one keeps its own names |
| DomNamespaces.AssignPrefixBound | src/main/java/com/indoqa/xml/dom/DOMStreamer.java:425-448 | the prefix given to an attribute resolves to its namespace, unless a prefix declared for that namespace was borrowed; the counter moves only for a generated prefix, which is then declared on the element |
| DomNamespaces.AssignPrefixKeeps | src/main/java/com/indoqa/xml/dom/DOMStreamer.java:425-448 | giving an attribute a prefix changes no resolved prefix that the counter could not have generated |
| DomNamespaces.AttributeStep | src/main/java/com/indoqa/xml/dom/DOMStreamer.java:449-457 | each non-declaration attribute adds one attribute of type CDATA with its value, its local name and its namespace, empty when it has none |
| DomNamespaces.AttributesFold | src/main/java/com/indoqa/xml/dom/DOMStreamer.java:392-459 | the attributes are collected in order and the counter never goes back |
| DomNamespaces.FoldUnrolled | src/main/java/com/indoqa/xml/dom/DOMStreamer.java:392-459 | a declaration attribute is skipped and any other is collected |
| DomNamespaces.AttributesFoldCarries | src/main/java/com/indoqa/xml/dom/DOMStreamer.java:392-459 | one attribute comes out for each non-declaration attribute, in order, with its value and namespace |
| DomNamespaces.AttributesFoldKeeps | src/main/java/com/indoqa/xml/dom/DOMStreamer.java:392-459 | collecting the attributes changes no resolved prefix that the counter could not have generated |
| DomNamespaces.StartMappings | src/main/java/com/indoqa/xml/dom/DOMStreamer.java:462-478 | one prefix-mapping start goes out for each declaration of the element, in order |
| DomNamespaces.EndMappings | src/main/java/com/indoqa/xml/dom/DOMStreamer.java:271-281 | one prefix-mapping end goes out for each declaration of the element, in order |
| DomStreamers.StartOfElement | src/main/java/com/indoqa/xml/dom/DOMStreamer.java:320-485 | the start of an element never moves the prefix counter back |
| DomStreamers.StartElementSpec | src/main/java/com/indoqa/xml/dom/DOMStreamer.java:320-485 | the start of an element opens exactly one new record on top of the open elements and never moves the counter back |
| DomStreamers.StartElementIs | src/main/java/com/indoqa/xml/dom/DOMStreamer.java:320-485 | the start of an element is its prefix-mapping starts followed by its start tag with the bound names and the converted attributes, and the new record holds those names and declarations |
| DomStreamers.StartNodeSpec | src/main/java/com/indoqa/xml/dom/DOMStreamer.java:304-519 | only an element opens a record; every other node leaves the records and the counter as they are |
| DomStreamers.EndNodeSpec | src/main/java/com/indoqa/xml/dom/DOMStreamer.java:261-297 | the end of an element closes its record; every other node leaves the records as they are |
| DomStreamers.Walk | src/main/java/com/indoqa/xml/dom/DOMStreamer.java:533-573 | walking a node and everything below it restores the open records and never moves the counter back |
| DomStreamers.WalkAll | src/main/java/com/indoqa/xml/dom/DOMStreamer.java:533-573 | walking a list of siblings restores the open records and never moves the counter back |
| DomStreamers.WalkUnrolled | src/main/java/com/indoqa/xml/dom/DOMStreamer.java:533-573 | a node is walked as its start, then its children in order, then its end |
| DomStreamers.WalkAllUnrolled | src/main/java/com/indoqa/xml/dom/DOMStreamer.java:533-573 | siblings are walked in order, each from the state the one before left |
| DomStreamers.GeneratedPrefixClash | src/main/java/com/indoqa/xml/dom/DOMStreamer.java:425-448 | an element `NS1:e` in namespace X whose attribute needs a prefix for namespace Y starts with `NS1` declared as Y and still has the qualified name `NS1:e` in namespace X, so its own prefix no longer resolves to its namespace |
| DomStreamers.ElementNamespaceInScope | src/main/java/com/indoqa/xml/dom/DOMStreamer.java:351-368 | after an element starts, its prefix resolves to its namespace, unless the prefix has the shape of a generated one |
| DomStreamers.AppendNoDocumentEvents | src/main/java/com/indoqa/xml/dom/DOMStreamer.java:533-573 | two runs of events without document events put together have none |
| DomStreamers.ElementShape | src/main/java/com/indoqa/xml/dom/DOMStreamer.java:261-283 | an element yields its prefix-mapping starts, its start tag, its children's events, its end tag with the same names, and its prefix-mapping ends |
| DomStreamers.MappingsNoOtherEvents | src/main/java/com/indoqa/xml/dom/DOMStreamer.java:271-281 | prefix-mapping events contain no element and no document events |
| DomStreamers.StartNodeOthers | src/main/java/com/indoqa/xml/dom/DOMStreamer.java:304-519 | the start of a node sends no document event, and no element event unless it is an element |
| DomStreamers.EndNodeOthers | src/main/java/com/indoqa/xml/dom/DOMStreamer.java:261-297 | the end of a node sends no document event, and no element event unless it is an element |
| DomStreamers.WalkNoDocumentEvents | src/main/java/com/indoqa/xml/dom/DOMStreamer.java:533-573 | the walk below a node never sends a document event, even for a document node |
| DomStreamers.WalkAllNoDocumentEvents | src/main/java/com/indoqa/xml/dom/DOMStreamer.java:533-573 | walking a list of siblings never sends a document event |
| DomStreamers.StreamDocumentEvents | src/main/java/com/indoqa/xml/dom/DOMStreamer.java:536-572 | the document events are sent exactly when a document node is streamed, first and last |
| DomStreamers.OthersNest | src/main/java/com/indoqa/xml/dom/DOMStreamer.java:533-573 | events that are not elements leave the nesting of tags as it is |
| DomStreamers.NestBracket | src/main/java/com/indoqa/xml/dom/DOMStreamer.java:261-283 | a start tag and a matching end tag around balanced events are balanced |
| DomStreamers.WalkNests | src/main/java/com/indoqa/xml/dom/DOMStreamer.java:533-573 | the walk of a node closes every tag it opens, in reverse order |
| DomStreamers.WalkAllNests | src/main/java/com/indoqa/xml/dom/DOMStreamer.java:533-573 | the walk of a list of siblings closes every tag it opens, in reverse order |
| DomStreamers.WalkBalanced | src/main/java/com/indoqa/xml/dom/DOMStreamer.java:533-573 | the events of any walk are well nested: every start tag has its own matching end tag |
| DomStreamers.ElementMappings | src/main/java/com/indoqa/xml/dom/DOMStreamer.java:462-478 | an element's prefix-mapping starts come just before its start tag and its prefix-mapping ends just after its end tag, for the same declarations in the same order |
| DomStreamers.MappingIndices | src/main/java/com/indoqa/xml/dom/DOMStreamer.java:462-478 | the events of an element put together hold the mappings at both ends and the tags just inside them |
| DomStreamers.FramedIndices | src/main/java/com/indoqa/xml/dom/DOMStreamer.java:261-283 | two runs of events of the same length framing a start tag, children and an end tag sit at the two ends |
| DomStreamers.NamespaceNormalizingDOMStreamer.constructor | src/main/java/com/indoqa/xml/dom/DOMStreamer.java:173-183 | a new streamer has no open element, a counter of 0 and has sent nothing |
| DomStreamers.NamespaceNormalizingDOMStreamer.Recycle | src/main/java/com/indoqa/xml/dom/DOMStreamer.java:249-254 | recycling drops the open elements and resets the counter to 0 |
| DomStreamers.NamespaceNormalizingDOMStreamer.GetNamespaceForPrefix | src/main/java/com/indoqa/xml/dom/DOMStreamer.java:217-247 | the loop up the DOM returns exactly the namespace NamespaceForPrefix gives |
| DomStreamers.NamespaceNormalizingDOMStreamer.CollectDeclarations | src/main/java/com/indoqa/xml/dom/DOMStreamer.java:326-336 | the loop over the attributes collects exactly the element's own namespace declarations |
| DomStreamers.NamespaceNormalizingDOMStreamer.ConvertAttributes | src/main/java/com/indoqa/xml/dom/DOMStreamer.java:392-459 | the loop over the attributes produces exactly the attributes, declarations and counter of the fold |
| DomStreamers.NamespaceNormalizingDOMStreamer.MapPrefixes | src/main/java/com/indoqa/xml/dom/DOMStreamer.java:462-478 | one prefix-mapping start is sent for each declaration, in order, and the state is kept |
| DomStreamers.NamespaceNormalizingDOMStreamer.UnmapPrefixes | src/main/java/com/indoqa/xml/dom/DOMStreamer.java:271-281 | one prefix-mapping end is sent for each declaration, in order, and the state is kept |
| DomStreamers.NamespaceNormalizingDOMStreamer.BindNames | src/main/java/com/indoqa/xml/dom/DOMStreamer.java:338-377 | the element's names come from ElementNaming and its declarations from BindElement |
| DomStreamers.NamespaceNormalizingDOMStreamer.StartElementNode | src/main/java/com/indoqa/xml/dom/DOMStreamer.java:320-485 | the element case of the start sends exactly the events of the element start and moves to its state |
| DomStreamers.NamespaceNormalizingDOMStreamer.EndNode | src/main/java/com/indoqa/xml/dom/DOMStreamer.java:261-297 | ending an element with no open record throws a `NullPointerException` and changes nothing; any other end sends the events of the end and moves to its state |
| DomStreamers.NamespaceNormalizingDOMStreamer.StartNode | src/main/java/com/indoqa/xml/dom/DOMStreamer.java:304-519 | the start of a node sends exactly its events and moves to its state |
| DomStreamers.NamespaceNormalizingDOMStreamer.WalkNode | src/main/java/com/indoqa/xml/dom/DOMStreamer.java:533-573 | walking a node sends exactly the events of the walk and moves to its state |
| DomStreamers.NamespaceNormalizingDOMStreamer.WalkChildren | src/main/java/com/indoqa/xml/dom/DOMStreamer.java:533-573 | walking the siblings sends exactly the events of their walk and moves to its state |
| DomStreamers.NamespaceNormalizingDOMStreamer.Stream | src/main/java/com/indoqa/xml/dom/DOMStreamer.java:533-573 | streaming sends exactly the events of the stream function, between document events for a document |
| DomStreamers.DOMStreamer.constructor | src/main/java/com/indoqa/xml/dom/DOMStreamer.java:57-73 | a new streamer normalizes namespaces and its normalizing streamer is new |
| DomStreamers.DOMStreamer.IsNormalizeNamespaces | src/main/java/com/indoqa/xml/dom/DOMStreamer.java:82-84 | the flag is reported as it is |
| DomStreamers.DOMStreamer.SetNormalizeNamespaces | src/main/java/com/indoqa/xml/dom/DOMStreamer.java:100-102 | the flag is set to the value given |
| DomStreamers.DOMStreamer.Recycle | src/main/java/com/indoqa/xml/dom/DOMStreamer.java:86-90 | recycling resets the normalizing streamer and turns normalization back on |
| DomStreamers.DOMStreamer.Stream | src/main/java/com/indoqa/xml/dom/DOMStreamer.java:107-113 | with normalization on, the node goes to the normalizing streamer; with it off, that streamer is left as it is |
| CompiledResources.TimestampKeyErrors | src/main/java/com/indoqa/xml/pipeline/sax/component/XSLTTransformer.java:153-161 | a timestamp key exists exactly when there is a URL or a source, the error names the class, and the key carries the stored last-modified time |
| CompiledResources.TimestampKeyMatches | src/main/java/com/indoqa/xml/pipeline/sax/component/SchemaProcessorTransformer.java:70-78 | two timestamp keys are equal exactly when they name the same resource, and valid for each other exactly when they also have the same last-modified time |
| CompiledResources.XsltKeyMatches | src/main/java/com/indoqa/xml/pipeline/sax/component/XSLTTransformer.java:152-165 | two XSLT keys are equal exactly when they name the same resource with the same sitemap-safe parameters, and valid exactly when the last-modified times also agree |
| CompiledResources.DifferentParameterValues | src/main/java/com/indoqa/xml/pipeline/sax/component/XSLTTransformer.java:162 | a cachable parameter with a different value gives a different key, neither equal nor valid |
| CompiledResources.TailMatchesChars | src/main/java/com/indoqa/xml/pipeline/sax/component/XSLTTransformer.java:55 | the tail of the parameter-name pattern accepts exactly the strings of word characters, '-' and '.' |
| CompiledResources.ParameterNameChars | src/main/java/com/indoqa/xml/pipeline/sax/component/XSLTTransformer.java:55 | a parameter name is accepted exactly when it starts with a letter or '_' and goes on with word characters, '-' and '.' |
| CompiledResources.AcceptedParameterNames | src/main/java/com/indoqa/xml/pipeline/sax/component/XSLTTransformer.java:55 | "page", "_x-1.y" and "Z" are parameter names |
| CompiledResources.RejectedParameterNames | src/main/java/com/indoqa/xml/pipeline/sax/component/XSLTTransformer.java:55 | the empty string, "1st", "-x", "a b" and "xsl:param" are not parameter names |
| CompiledResources.ReusedOnlyWhenRecent | src/main/java/com/indoqa/xml/pipeline/sax/component/XSLTTransformer.java:278-286 | a transformer without a resource takes the cached one exactly when it is at least as recent, and then takes that very value |
| CompiledResources.StoredValueReused | src/main/java/com/indoqa/xml/pipeline/sax/component/XSLTTransformer.java:276-313 | a value compiled and stored under a key is taken by a later load of that key exactly when the later last-modified time is not newer |
| CompiledResources.HeldResourceKept | src/main/java/com/indoqa/xml/pipeline/sax/component/XSLTTransformer.java:287 | a resource the transformer already holds is kept when the cache has nothing as recent, so it is not compiled again |
| CompiledResources.XSLTTransformer.constructor | src/main/java/com/indoqa/xml/pipeline/sax/component/XSLTTransformer.java:86-88 | a new transformer has no parameters, no templates, no URL, no source and a last-modified time of 0 |
| CompiledResources.XSLTTransformer.ConstructCacheKey | src/main/java/com/indoqa/xml/pipeline/sax/component/XSLTTransformer.java:152-165 | a key exists exactly when there is a URL or a source; it is the compound of the URL (else source) timestamp key and the sitemap-safe parameter key, in that order; otherwise the has-no-source error |
| CompiledResources.XSLTTransformer.SetParameters | src/main/java/com/indoqa/xml/pipeline/sax/component/XSLTTransformer.java:199-205 | the parameters are replaced by a copy of those given, or by none |
| CompiledResources.XSLTTransformer.PassedParameters | src/main/java/com/indoqa/xml/pipeline/sax/component/XSLTTransformer.java:226-237 | exactly the parameters whose names match the pattern are passed to the transformer, with their values |
| CompiledResources.XSLTTransformer.LoadCached | src/main/java/com/indoqa/xml/pipeline/sax/component/XSLTTransformer.java:276-313 | a recent enough cached template is taken and the cache left alone; otherwise a missing template is compiled and stored under the key with the current last-modified time, and a failed compilation is a setup error naming the source's text |
| CompiledResources.XSLTTransformer.LoadSource | src/main/java/com/indoqa/xml/pipeline/sax/component/XSLTTransformer.java:265-274 | a missing source is an illegal-argument error that changes nothing; otherwise source and last-modified time are set and the cache step runs with the source as key |
| CompiledResources.XSLTTransformer.LoadUrl | src/main/java/com/indoqa/xml/pipeline/sax/component/XSLTTransformer.java:324-333 | a missing URL is an illegal-argument error that changes nothing; otherwise the URL and its last-modified time are set and the cache step runs with the URL as key, a failure naming the wrapping `StreamSource` |
| CompiledResources.XSLTTransformer.SetConfiguration | src/main/java/com/indoqa/xml/pipeline/sax/component/XSLTTransformer.java:170-192 | a source that is not a URL is a setup error that changes nothing; no source clears the URL and keeps the configuration as parameters; a URL is loaded, and the parameters are set only when loading succeeds |
| CompiledResources.NewXSLTTransformerFromSource | src/main/java/com/indoqa/xml/pipeline/sax/component/XSLTTransformer.java:96-113 | a transformer made from a source loads it, and a missing source is an illegal-argument error |
| CompiledResources.NewXSLTTransformerFromUrl | src/main/java/com/indoqa/xml/pipeline/sax/component/XSLTTransformer.java:120-136 | a transformer made from a URL loads it, and a missing URL is an illegal-argument error |
| CompiledResources.SchemaProcessorTransformer.constructor | src/main/java/com/indoqa/xml/pipeline/sax/component/SchemaProcessorTransformer.java:56-58 | a new transformer has no schema, no URL, no source and a last-modified time of 0 |
| CompiledResources.SchemaProcessorTransformer.ConstructCacheKey | src/main/java/com/indoqa/xml/pipeline/sax/component/SchemaProcessorTransformer.java:70-78 | the cache key is the URL or source timestamp key, or the has-no-source error |
| CompiledResources.SchemaProcessorTransformer.LoadCached | src/main/java/com/indoqa/xml/pipeline/sax/component/SchemaProcessorTransformer.java:119-142 | a recent enough cached schema is taken and the cache left alone; otherwise a missing schema is compiled and stored under the key with the current last-modified time, and a failed compilation is a setup error naming the source's text |
| CompiledResources.SchemaProcessorTransformer.LoadSource | src/main/java/com/indoqa/xml/pipeline/sax/component/SchemaProcessorTransformer.java:108-117 | a missing source is an illegal-argument error that changes nothing; otherwise source and last-modified time are set and the cache step runs with the source as key |
| CompiledResources.SchemaProcessorTransformer.LoadUrl | src/main/java/com/indoqa/xml/pipeline/sax/component/SchemaProcessorTransformer.java:144-153 | a missing URL is an illegal-argument error that changes nothing; otherwise the URL and its last-modified time are set and the cache step runs with the URL as key, a failure naming the wrapping `StreamSource` |
| CompiledResources.SchemaProcessorTransformer.SetConfiguration | src/main/java/com/indoqa/xml/pipeline/sax/component/SchemaProcessorTransformer.java:80-87 | a source that is not a URL is a setup error, no source is the null-URL error, both changing nothing; a URL is loaded |
| CompiledResources.NewSchemaProcessorTransformerFromSource | src/main/java/com/indoqa/xml/pipeline/sax/component/SchemaProcessorTransformer.java:60-63 | a transformer made from a source loads it, and a missing source is an illegal-argument error |
| CompiledResources.NewSchemaProcessorTransformerFromUrl | src/main/java/com/indoqa/xml/pipeline/sax/component/SchemaProcessorTransformer.java:65-68 | a transformer made from a URL loads it, and a missing URL is an illegal-argument error |
| JavaLang.ToLong | src/main/java/com/indoqa/xml/pipeline/caching/ExpiresCacheKey.java:40 | Java long arithmetic: the result is a long congruent to the exact value modulo 2^64, and the exact value itself when it fits |
| JavaLang.ToInt | src/main/java/com/indoqa/xml/pipeline/sax/component/AbstractLinkRewriterTransformer.java:210 | Java int arithmetic: the result is an int congruent to the exact value modulo 2^32, and the exact value itself when it fits |
| JavaLang.StringHash | src/main/java/com/indoqa/xml/pipeline/sax/component/AbstractLinkRewriterTransformer.java:210 | a string's hash code is a Java int, 0 for the empty string |
| JavaLang.IntBytesRoundTrip | src/main/java/com/indoqa/xml/murmurhash/MurmurHashCodeBuilder.java:45-47 | the four bytes of an int, most significant first, read back as a two's-complement int give that int |
| JavaLang.LongBytesRoundTrip | src/main/java/com/indoqa/xml/murmurhash/MurmurHashCodeBuilder.java:49-53 | the eight bytes of a long, most significant first, read back as a two's-complement long give that long |
| JavaLang.Utf8RoundTrip | src/main/java/com/indoqa/xml/murmurhash/MurmurHashCodeBuilder.java:55-61 | the UTF-8 bytes of a string decode back to the string's code points |
| JavaLang.Utf8Append | src/main/java/com/indoqa/xml/murmurhash/MurmurHashCodeBuilder.java:55-61 | the UTF-8 encoding of two strings in a row is the encoding of the first followed by that of the second |
| JavaLang.Trim | src/main/java/com/indoqa/xml/dom/DOMStreamer.java:373 | `String.trim`: the result is a slice of the original; only characters up to U+0020 are dropped, from the start and the end, and the result neither starts nor ends with one |
| JavaLang.SplitOnSpaceProperties | src/main/java/com/indoqa/xml/pipeline/sax/component/AbstractLinkRewriterTransformer.java:97 | split(" ") is the complete split on spaces with trailing empty pieces dropped, and no piece holds a space |
| JavaLang.SplitOnSpaceJoin | src/main/java/com/indoqa/xml/pipeline/sax/component/AbstractLinkRewriterTransformer.java:97-101 | split(" ") of words joined by single spaces, the last one non-empty, gives the words back |
| JavaLang.SplitOnSpaceEdgeCases | src/main/java/com/indoqa/xml/pipeline/sax/component/AbstractLinkRewriterTransformer.java:97 | " ".split(" ") has no piece and "".split(" ") has one empty piece |
| JavaLang.SplitAllJoin | src/main/java/com/indoqa/xml/pipeline/sax/component/AbstractLinkRewriterTransformer.java:97 | joining the pieces of the complete split with the separator gives the string back, and no piece holds the separator |
| JavaLang.IntToString | src/main/java/com/indoqa/xml/pipeline/caching/ParameterCacheKey.java:87-89 | the decimal form of an int is never empty |
| JavaLang.ParseLongRoundTrip | src/main/java/com/indoqa/xml/pipeline/caching/ExpiresCacheKey.java:40 | parsing the decimal form of a long gives that long |

## Left out

- Concurrency: the thread pool of the refresh manager and every `synchronized` block. The executor is a FIFO queue of refresh jobs that the caller steps.
- The garbage-collector eviction of the `WeakHashMap` that `SimpleCache` stores its entries in (SimpleCache.java:34): an entry stays until it is removed or the cache is cleared.
- SimpleCaches.Find: the `==` short cut of the `WeakHashMap` (the very same key object) is not modelled, because keys are values. It matters only for a compound key holding a `null` sub-key, whose `equals` rejects even itself: Java finds it again under the same object, the model does not.
- I/O and the network. `URLConnectionUtils` and a URL's last-modified time are oracle functions, and a stream is reduced to the bytes it received, its flush count and whether it is closed.
- `System.currentTimeMillis` is a parameter, the current time.
- XML parsing and the TrAX/JAXP library objects are not part of this model. The affected parts are:
  - `DefaultDOMStreamer`;
  - compiling a stylesheet or schema, which is an oracle parameter;
  - creating the serializing handler in `XMLSerializer.setup`;
  - the `TransformerFactory` attributes of the XSLT configuration;
  - connecting a compiled transformer to its consumer beyond the parameter-name filter.
- `RegexpLinkRewriterTransformer` and its regular-expression engine are not part of this model.
- `MurmurHash.hash`, `toHashCode`, every `hashCode`, `toString`, `dump` and all logging. The hash codes of cache keys are an oracle given to each `SimpleCache`; only the byte accumulation of `MurmurHashCodeBuilder` is modelled. Because `WeakHashMap` spreads a hash code by a bijection of 32-bit values, comparing the hash codes themselves is the same test.
- `Object.toString` of a `StreamSource`: its identity hash is a parameter of the URL loads.
- Java serialization, and the memory size of `ObjectCacheValue` and `CachedCacheValue`.
- The thin wrappers and the interfaces that only declare operations, such as the component, starter, finisher and consumer interfaces.
- The static caches of `CachedCacheKey` and of the compiling transformers are objects passed to the code that uses them.
- The `jmxGroupName` and the setup parameter map that the pipeline hands to its components are not modelled.
- A second `setup` whose components fail: the model points the pipeline at the new streams, whereas the Java Finisher keeps the stream of the first setup.
- DomNamespaces.Put: the namespace declarations of an element are a sequence in insertion order (a new prefix is appended, a known one replaced in place), which stands in for the iteration order of the Java `HashMap` (DOMStreamer.java:661). The order in which `DomNamespaces.StartMappings`, `DomNamespaces.EndMappings`, `DomNamespaces.GetPrefix` and `DomNamespaces.FindPrefix` visit the declarations is therefore that insertion order, not Java's hash order.
- The DOM streamer's `ElementInfo` chain is a sequence of values. The loop over the DOM tree that follows child, sibling and parent links is a recursive walk over a tree datatype.
- The attribute-prefix counter of the DOM streamer is an unbounded integer; its `int` overflow after 2^31 generated prefixes is not modelled.
- `TextSerializer.recycle` calls `super.recycle`, which recycles the serializing handler; only the two flags are modelled.
- A lexical handler is a flag on the handler value: it says whether the handler implements `LexicalHandler`.
- The `ParseException` of the tokenizer keeps only its position, not the expression text.
- Java `byte` values are their unsigned bit patterns; the sign matters nowhere in the modelled code.
- JavaLang.StringHash: states only that the result is a 32-bit `int` and that the empty string hashes to 0. The UTF-16 polynomial itself is not modelled, because strings here are sequences of code points.
- `SAXBuffer.saxBuffer(SAXBuffer)` and its `XMLizableBit` (SAXBuffer.java:177-179, 657-678): the nested buffer is held by reference and replayed through `EmbeddedSAXPipe`, which is not part of this model.
- The `SAXBuffer(List<SaxBit>)` constructor (SAXBuffer.java:72-74): it shares the caller's list, and that aliasing is not modelled.
- CachedKey.CachedCacheKey.SetValue: keys are values, so the URL list stored in the side cache and the one held as inner key are copies; a later re-stamp of the Java object that both hold is not seen through the other holder.
- URLListKey.URLListCacheKey.GetLastModified: the re-stamp changes only this key object; a copy of the key stored elsewhere (the side cache of `CachedCacheKey`, a compound key) keeps the old timestamps, whereas Java shares the one object.
- A component's exceptions from `setConsumer`, `setup` and `constructCacheKey` are fixed fields of the component; exceptions from `execute` and `finish` are reduced to whether the Starter threw.
- `new ParameterCacheKey(Map)` keeps the caller's map by reference (ParameterCacheKey.java:46-51), so a later change to that map changes the key; the model stores a copy.
- The casts in `CachingPipeline.setConfiguration` (CachingPipeline.java:109-111) and in `AbstractLinkRewriterTransformer.setConfiguration` (AbstractLinkRewriterTransformer.java:97) cannot throw a `ClassCastException` in the model, because the parameters are a map of strings.
- A `TokenReceiver.addToken` that throws its own `ParseException` (VariableExpressionTokenizer.java:38) is not modelled: the tokens are collected into a sequence.
- XmlSerializers.XMLSerializer.SetFormat: `setFormat(null)` (XMLSerializer.java:129-131) is not expressible, because the format is a map and never `null`; in Java every setter and `constructCacheKey` then throw a `NullPointerException`. The caller's `Properties` object is also kept by reference there, so a later change to it changes the serializer's format; the model stores a copy.
- The root builder of `SAXEventsBuilder.wrap` has `null` names (SAXEventsBuilder.java:36); closing it emits an `endElement` whose names are written as empty strings.
- The `int` overflow of the `CleaningTransformer` buffer's new capacity `length + len + 1000` (CleaningTransformer.java:86) is not modelled.
- SaxBuffers.SAXBuffer.CharactersSlice and ParamSaxBuffers.ParamSAXBuffer.CharactersSlice require the slice to lie inside the array, as the SAX contract promises its callers; Java would throw an `ArrayIndexOutOfBoundsException` otherwise.
- Positions and lengths in strings count code points, not UTF-16 units, because strings are sequences of characters.
- ParameterKey.SitemapSafe: a parameter outside the reserved names whose value is `null` makes `entry.getValue().toString()` throw a `NullPointerException` in Java (ParameterCacheKey.java:75); the model's `toString` is total and its map holds no `null` values.
- ParameterKey.GetSitemapSafeInstance: for the same reason it always returns a key, where Java throws a `NullPointerException` on a `null` parameter value (ParameterCacheKey.java:75).
- ParameterKey.ParameterCacheKey.AddMap: a `null` map, key or value throws a `NullPointerException` in Java (ParameterCacheKey.java:92-93); the map is a `map<string, string>` here, which holds none of them.
- ParameterKey.ParameterCacheKey.AddString: `addParameter(name, (String) null)` stores a `null` value in Java (ParameterCacheKey.java:97-99); values are strings here, never `null`.
- CachingOutputStreams.CachingOutputStream.Grow: the `int` overflow of the new capacity `length + len + 1024` (CachingOutputStream.java:65) and `buffer.length + 1024` (CachingOutputStream.java:79), which makes Java throw a `NegativeArraySizeException`, is not modelled; capacities are unbounded.
- LinkRewriters.RewriteAttribute: the hook's `None` stands only for a caught `LinkRewriterException` (AbstractLinkRewriterTransformer.java:133-140). A hook that returns `null`, which `setValue(i, null)` then stores (AbstractLinkRewriterTransformer.java:134-135), and a `RuntimeException` from the hook, which propagates, are not expressible.
