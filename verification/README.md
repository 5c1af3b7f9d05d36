# rexgen: parser context and character layer, in Dafny

This project models two parts of librexgen, the regex-driven string generator.

**The parser context** is `src/librexgen/parser/rexgenparsercontext.cpp`, module `ParserContext`. It is the object the pattern parser works against.

- Its constructor decodes the multibyte pattern into wide characters. `getNextChar` then reads them one at a time.
- Capturing groups are registered under their group number. The first registration of a number wins.
- Back-references (`\1`) are registered under the number they name.
- `updateAllGroupReferences` binds every reference to the node of its group.
- `hasInvalidGroupReferences` inspects those bindings.
- `getStreamRegex` creates the stream anchor on its first call. Later calls return reference nodes bound to that anchor.

Shared pointers are Dafny objects, and a weak handle is a nullable reference. Whether a handle can still be locked depends on a set `live`: the nodes the pattern tree still owns. Every operation that locks a handle takes `live` as a parameter. The context class updates its fields in place, just as the C++ object does. `setRegex` overwrites a reference's target in place.

**The character layer** is `src/librexgen/string/uchar.h`, module `UChar`. It covers:

- the charset tags 1 to 6;
- the case flags, with the macros that test and set them, written with C's logical `!` exactly as the header has it;
- the Unicode plane numbers;
- the 4-byte binary cache;
- `UCHAR_UNASSIGNED`;
- `encode_codepoint`.

The header declares `encode_codepoint` but does not define it. The model gives it the standard encodings:

- UTF-8 per section 3 of RFC 3629;
- UTF-16 per section 2.1 of RFC 2781, in either byte order;
- UTF-32 as the raw 32-bit value, in either byte order.

Each encoding has a decoder beside it, and round trips are proved in both directions. The `uchar_t` record is a class, and its two set-macros are methods on its `flags` field.

## Model

| member | source | states |
|---|---|---|
| ParserContext.DecodeInput | src/librexgen/parser/rexgenparsercontext.cpp:35-45 | the decoding loop collects exactly the characters, and advances over exactly the bytes, that `Decoded` describes: one character per positive step, stopping at the first step <= 0 |
| ParserContext.Decoded | src/librexgen/parser/rexgenparsercontext.cpp:39-45 | decoding never advances past the input and never yields more characters than bytes consumed; it yields nothing exactly when the first step does not advance |
| ParserContext.DecodedStopsAtNonPositiveStep | src/librexgen/parser/rexgenparsercontext.cpp:39-45 | with a decoder that never claims more bytes than remain, the loop stops exactly at a position where the step returns <= 0 |
| ParserContext.RexgenParserContext.constructor | src/librexgen/parser/rexgenparsercontext.cpp:26-47 | the wide input is the decoded pattern; the cursor is at its start; the next group number is 1; there is no stream anchor; both tables are empty |
| ParserContext.RexgenParserContext.GetNextChar | src/librexgen/parser/rexgenparsercontext.cpp:127-131 | returns the character under the cursor, records it as the current character and advances the cursor by one |
| ParserContext.RexgenParserContext.RegisterGroupReference | src/librexgen/parser/rexgenparsercontext.cpp:87-95 | the reference is added to the set under its group number, which is created when absent; other numbers keep their sets; registering twice changes nothing |
| ParserContext.RexgenParserContext.GetGroupReferences | src/librexgen/parser/rexgenparsercontext.cpp:97-100 | yields the set under `id` when one is registered, and every member names `id`; yields `None` (the throwing lookup) exactly when none is registered |
| ParserContext.RexgenParserContext.RegisterGroup | src/librexgen/parser/rexgenparsercontext.cpp:102-106 | a handle that can be locked is stored under its node's group number, unless that number is already taken; an expired handle changes nothing |
| ParserContext.RexgenParserContext.GetGroupRegex | src/librexgen/parser/rexgenparsercontext.cpp:108-110 | yields the handle registered under `id`, whose node has group number `id`; yields `None` (the throwing lookup) exactly when `id` is unregistered |
| ParserContext.RexgenParserContext.GetGroups | src/librexgen/parser/rexgenparsercontext.cpp:112-114 | yields the group table, in which every entry's node carries the number it is stored under |
| ParserContext.GroupReference.SetRegex | src/librexgen/parser/rexgenparsercontext.cpp:66 | the reference now points at the given node |
| ParserContext.RexgenParserContext.UpdateGroupReferences | src/librexgen/parser/rexgenparsercontext.cpp:61-71 | when the handle can be locked, every registered reference with the node's group number points at that node; every other reference keeps its target; an expired handle changes nothing |
| ParserContext.RexgenParserContext.UpdateAllGroupReferences | src/librexgen/parser/rexgenparsercontext.cpp:54-59 | every reference whose group has a lockable handle points at that group's node; every other reference keeps its target |
| ParserContext.RexgenParserContext.HasInvalidGroupReferences | src/librexgen/parser/rexgenparsercontext.cpp:73-81 | as written: true if and only if some registered reference has a target that is NOT expired; false when nothing is registered |
| ParserContext.RexgenParserContext.HasUnboundGroupReferences | src/librexgen/parser/rexgenparsercontext.cpp:73-81 | the check the name promises: true if and only if some registered reference has an expired or unset target |
| ParserContext.RexgenParserContext.ResolvedReferencesReadAsInvalid | src/librexgen/parser/rexgenparsercontext.cpp:73-81 | after resolution, when every reference names a live group, no reference is dangling; yet as soon as one reference exists, the as-written check sees a bound one |
| ParserContext.DanglingReferenceScenario | src/librexgen/parser/rexgenparsercontext.cpp:54-81 | for the pattern `\1` with no group 1, after registration and resolution with no live group, the reference stays unbound: the as-written check returns false and the intended check returns true |
| ParserContext.BackReferenceScenario | src/librexgen/parser/rexgenparsercontext.cpp:54-81 | for the pattern `(a)\1`, after registration and resolution, the as-written check returns true and the intended check returns false |
| ParserContext.RexgenParserContext.GetStreamRegex | src/librexgen/parser/rexgenparsercontext.cpp:116-125 | the first call creates the anchor, keeps it and returns it; each later call returns a new reference node that is numbered with the anchor's id and bound to the anchor, and keeps the anchor |
| UChar.CharsetTag | src/librexgen/string/uchar.h:30-35 | every charset's tag lies in 1..6 |
| UChar.CharsetOfTag | src/librexgen/string/uchar.h:29-35 | a byte is a charset tag exactly when it lies in 1..6, and it reads back to a charset with that tag |
| UChar.CharsetTagsDistinct | src/librexgen/string/uchar.h:30-35 | two charsets share a tag only if they are the same; every tag reads back as its charset |
| UChar.FlagBitsDistinct | src/librexgen/string/uchar.h:45-47 | each of the three flags is a single bit, and no two of them share a bit |
| UChar.CanChangeCase | src/librexgen/string/uchar.h:49 | "can change case" holds exactly when the preserve-case bit is clear |
| UChar.MustPreserveCase | src/librexgen/string/uchar.h:51 | the test yields either 0 or the preserve-case bit, and it is non-zero exactly when that bit is set |
| UChar.CaseTestsAreComplements | src/librexgen/string/uchar.h:49-51 | "can change case" holds exactly when the preserve-case bit is clear, and "must preserve case" exactly when it is set; the two tests are complements |
| UChar.SetChangeCaseFlags | src/librexgen/string/uchar.h:52-55 | as written, the macro leaves flags 0 whatever they were, which still reads as "can change case" |
| UChar.SetPreserveCaseFlags | src/librexgen/string/uchar.h:56-59 | as written, the macro leaves exactly the preserve-case bit, which reads as "must preserve case" |
| UChar.SetMacrosKeepCaseBitsExclusive | src/librexgen/string/uchar.h:52-59 | after either set-macro, the change-case and preserve-case bits are never both set |
| UChar.SetChangeCaseDropsChangeBit | src/librexgen/string/uchar.h:52-55 | the macro as written clears the change-case bit it has just set, and also clears the use-casefolded bit |
| UChar.SetPreserveCaseDropsCasefoldedBit | src/librexgen/string/uchar.h:56-59 | the macro as written clears the use-casefolded bit |
| UChar.SetChangeCaseIntended | src/librexgen/string/uchar.h:52-55 | with a bitwise complement: change-case is set, preserve-case is clear, and every other bit is kept |
| UChar.SetPreserveCaseIntended | src/librexgen/string/uchar.h:56-59 | with a bitwise complement: preserve-case is set, change-case is clear, and every other bit is kept |
| UChar.UnicodeChar.SetChangeCase | src/librexgen/string/uchar.h:52-55 | applying the macro to a character leaves its flags at the as-written value, 0, and keeps the record well formed |
| UChar.UnicodeChar.SetPreserveCase | src/librexgen/string/uchar.h:56-59 | applying the macro to a character leaves its flags at the as-written value, the preserve-case bit alone, and keeps the record well formed |
| UChar.UnicodeChar.constructor | src/librexgen/string/uchar.h:92-103 | builds a character from all of its fields; the cached form and the three casefolded forms each fit the 4-byte cache |
| UChar.PlaneNumber | src/librexgen/string/uchar.h:61-68 | every plane number is at most 16 |
| UChar.PlaneOfNumber | src/librexgen/string/uchar.h:61-68 | a number names a plane exactly when it is 0, 1, 2, 14, 15 or 16, and it reads back to the plane with that number |
| UChar.Utf8Encode | src/librexgen/string/uchar.h:131 | a UTF-8 form exists exactly for Unicode scalar values; it is 1 to 4 bytes long, and every byte after the first is a continuation byte |
| UChar.Utf8EncodeDecode | src/librexgen/string/uchar.h:131 | the UTF-8 form of every scalar value decodes back to that value |
| UChar.Utf8DecodeEncode | src/librexgen/string/uchar.h:131 | every byte string that decodes as UTF-8 is exactly the encoding of what it decodes to, so overlong forms are refused |
| UChar.Utf16Encode | src/librexgen/string/uchar.h:131 | a UTF-16 form exists exactly for scalar values: one unit below U+10000, and otherwise a high surrogate followed by a low surrogate |
| UChar.Utf16EncodeDecode | src/librexgen/string/uchar.h:131 | the UTF-16 units of every scalar value decode back to that value |
| UChar.Utf16DecodeEncode | src/librexgen/string/uchar.h:131 | every unit sequence that decodes is exactly the encoding of what it decodes to |
| UChar.UnitsBytes | src/librexgen/string/uchar.h:82-84 | each code unit takes two bytes |
| UChar.UnitsBytesRoundTrip | src/librexgen/string/uchar.h:82-84 | code units written out as bytes in either byte order read back as the same units |
| UChar.BytesUnitsRoundTrip | src/librexgen/string/uchar.h:82-84 | an even-length byte string read as code units and written out again in the same order is unchanged |
| UChar.Utf32Bytes | src/librexgen/string/uchar.h:85-87 | a 32-bit value takes four bytes |
| UChar.Utf32RoundTrip | src/librexgen/string/uchar.h:85-87 | a 32-bit value written out in either byte order reads back unchanged, and four bytes read as a value and written out again are unchanged |
| UChar.Encoding | src/librexgen/string/uchar.h:131 | every cached form fits the 4-byte cache; ANSI has a form exactly below 0x100 (the byte itself); UTF-8 is the RFC 3629 form; UTF-16 has a form exactly for scalar values (2 or 4 bytes); UTF-32 always has a form (4 bytes) |
| UChar.EncodingRoundTrip | src/librexgen/string/uchar.h:131 | in every charset, a cached form decodes back to its codepoint |
| UChar.DecodingRoundTrip | src/librexgen/string/uchar.h:131 | in every charset, a byte string that decodes is exactly the cached form of its codepoint |
| UChar.UnassignedHasNoUnicodeForm | src/librexgen/string/uchar.h:90 | UCHAR_UNASSIGNED has no ANSI, UTF-8 or UTF-16 form |
| UChar.EncodeCodepoint | src/librexgen/string/uchar.h:131 | writes the codepoint's form into the first bytes of the 4-byte cache, returns its length and leaves the other bytes alone; without a form it returns 0 and leaves the cache as it was |

## Left out

- The scanner (`InitScanner`, `DestroyScanner`, the destructor) and the generated lexer and grammar are not part of this model. So are the `result` and `options` members, apart from their effect on `getStreamRegex`.
- `mbrtowc` and the locale are a decoder parameter, `DecodeStep`. It maps the remaining bytes to a byte count and a character, and it carries no conversion state.
- ParserContext.DecodeInput: the decoding loop is a module-level method that the constructor calls, not a loop inside the constructor body.
- ParserContext.RexgenParserContext.constructor: the characters the loop produces are stated through `Decoded`. A step that claims more bytes than remain would end decoding in the model, while in the source the pointer would run past the input. `ValidDecoder` excludes that case.
- ParserContext.RexgenParserContext.GetNextChar: requires the cursor to be before the end. Reading at the end iterator is undefined in the source.
- ParserContext.RexgenParserContext.GetStreamRegex: the `StreamRegex` node and its callback are a plain node. Its id and group number are parameters, because the node constructor that assigns them is not part of this model.
- The `Regex` class hierarchy, the `GroupReference` node beyond its group number and target, and shared-pointer reference counts are not modelled. Whether a weak handle has expired is given by the `live` set.
- The sets of references are values in a map, not shared `std::set` objects. Iteration order over the tables is not modelled, because no result depends on it.
- `uchar_isascii`, `uchar_toggle_case`, `firstByteAddressOf`, `char_to_uchar`, `codepoint_to_uchar`, the `uchar_to_*` converters and the byte-order-mark helpers are declared in the header without bodies. Their definitions are not part of this model.
- UCHAR_MUST_CHANGE_CASE names flag constants that the header does not define, so it has no meaning to model.
- The `binary_character_t` union is the byte sequence of a form, at most 4 bytes long. The union's overlapping views, such as the ANSI byte sitting at offset 3 and the host byte order of `ucs2`/`ucs4`, are not modelled.
- UChar.Encoding: `encode_codepoint` has no body in the header. The ANSI rule (one byte below 0x100, otherwise no form) and the 0 returned with the cache untouched on failure are this model's reading of its contract.
- The error accessors of the C API (librexgen.h) are not part of this model.

## Findings

| source | as written | input that shows it | evidently intended | confidence | as-written member | corrected member |
|---|---|---|---|---|---|---|
| src/librexgen/string/uchar.h:52-55 | UCHAR_SET_CHANGE_CASE masks the flags with the logical negation of 0x02, which is 0 | flags 0x04: the result is 0, so the change-case bit just set and the use-casefolded bit are both lost | mask with the bitwise complement, which sets change-case, clears preserve-case and keeps the rest | high (not executed) | UChar.SetChangeCaseDropsChangeBit | UChar.SetChangeCaseIntended |
| src/librexgen/string/uchar.h:56-59 | UCHAR_SET_PRESERVE_CASE masks the flags with the logical negation of 0x01, which is 0, before setting 0x02 | flags 0x04: the result is 0x02, so the use-casefolded bit is lost | mask with the bitwise complement, which clears change-case, sets preserve-case and keeps the rest | high (not executed) | UChar.SetPreserveCaseDropsCasefoldedBit | UChar.SetPreserveCaseIntended |
| src/librexgen/parser/rexgenparsercontext.cpp:73-81 | `hasInvalidGroupReferences` accumulates "target is NOT expired", so it reports references that ARE bound | pattern `(a)\1`: after resolution the one reference is bound, and the check returns true; pattern `\1` with no group 1: the reference stays unbound, and the check returns false (DanglingReferenceScenario) | report references whose target has expired or was never set | medium (not executed; the caller that acts on the result is not part of this model) | ParserContext.BackReferenceScenario | ParserContext.RexgenParserContext.HasUnboundGroupReferences |
