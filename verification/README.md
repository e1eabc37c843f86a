# Small-block fragment reassembly of hachoir's Microsoft Office parser

This project is a Dafny model of `ParseFragments`, `FragmentGroup` and
`CustomFragment` from hachoir's `msoffice.py`. This code rebuilds the content
of the small properties of an OLE2 compound document. Such a property lives in
the mini stream. Its allocation is a chain of small blocks in the Mini FAT (the
MS-CFB format, section 2.4; the chain ends at the end-of-chain marker of
section 2.1). The model covers:

- **Property driver** (`createFields`): walks the property table in order and
  skips index 0, the root. It names each property through `PROPERTY_NAME`.
  `\5SummaryInformation` becomes `summary`, `\5DocumentSummaryInformation`
  becomes `doc_summary`, and any other property becomes its own field name
  followed by `content`.
- **Run coalescer and field builder** (`parseProperty`): drops properties of
  size 0 or of size at least `header/threshold`. It pulls block numbers from
  the chain and groups consecutive blocks into runs. For each run it seeks to
  the run's first block and yields one field. The field is a `Summary` for a
  summary prefix, else a `CompObj` named `comp_obj` at property index 1, else a
  `RawBytes` named `<prefix>[]`.
- **Fragment group**: fragments register into a shared group. The group joins
  their raw bytes, in registration order, into one input stream. That stream is
  tagged for re-parsing with `ParseFragments` and the OLE2 root of the first
  fragment.

The OLE2 container is given as a value, `PropertyFragments.Ole2`. It holds the
property table, the threshold, `ss_size`, `sector_size`, and `getChain`, given
as a function from a start block to the chain of block numbers. Each yielded
field records the block passed to `seekSBlock` as `seekBlock`.

The model keeps the code's quirks as written:

- `not first` and `previous and ...` are Python truthiness tests, so a cursor
  at block 0 counts as unset. A block 0 that has a block after it is
  overwritten by that block. `RunCoalescer.CoalesceCovers` states the exact
  effect for any chain.
- A run started after a break gets size `sector_size`, not `ss_size`. So only
  the first run has size `blocks * ss_size`.

The model also keeps these facts about the code:

- A reserved summary name at index 1 gives `Summary`, not `CompObj`, because
  the summary test comes before the index-1 test (msoffice.py:69-72).
- The fallback prefix is `property.name + "content"` (msoffice.py:32), built
  from the entry's field name in the container's field tree, not from its
  stored name. `Property` keeps both names.
- `parseProperty` checks neither for cycles nor for out-of-range blocks, and it
  does not trim the last fragment to the declared size, so the model does not
  either.

## Model

| member | source | states |
|---|---|---|
| `RunCoalescer.Step` | hachoir-parser/hachoir_parser/misc/msoffice.py:54-79 | one loop iteration keeps both cursors set, with `first <= previous`; a cursor at block 0 means both are 0; `previous` becomes the pulled block; emitted runs stay ordered |
| `RunCoalescer.Scan` | hachoir-parser/hachoir_parser/misc/msoffice.py:43-64 | the loop state after a prefix of the chain: unset before any block, otherwise `previous` is the last block pulled and every emitted run has `first <= last` |
| `RunCoalescer.Coalesce` | hachoir-parser/hachoir_parser/misc/msoffice.py:52-79 | a non-empty chain yields at least one run, every run has `first <= last`, and the last run ends at the chain's last block |
| `RunCoalescer.ScanCovers` | hachoir-parser/hachoir_parser/misc/msoffice.py:52-79 | loop invariant: the emitted runs plus the open run describe the blocks pulled so far, minus every block 0 that was followed by another block |
| `RunCoalescer.ScanCount` | hachoir-parser/hachoir_parser/misc/msoffice.py:56-64 | loop invariant: a run is emitted at each position where the previous block is non-zero and the new block does not follow it |
| `RunCoalescer.ScanMaximal` | hachoir-parser/hachoir_parser/misc/msoffice.py:59-79 | loop invariant, chains without block 0: no run (emitted or open) starts right after the run before it |
| `RunCoalescer.ScanSizes` | hachoir-parser/hachoir_parser/misc/msoffice.py:45-79 | loop invariant, chains without block 0: emitted runs and the open run obey the size law |
| `RunCoalescer.CoalesceCovers` | hachoir-parser/hachoir_parser/misc/msoffice.py:52-79 | for any non-empty chain, the runs' `first..last` ranges in emission order are the chain with every block 0 removed except a final one |
| `RunCoalescer.CoalesceReassembles` | hachoir-parser/hachoir_parser/misc/msoffice.py:52-78 | for a chain without block 0, the runs' ranges in emission order reproduce the chain exactly |
| `RunCoalescer.CoalesceCount` | hachoir-parser/hachoir_parser/misc/msoffice.py:52-78 | the number of runs is the number of breaks in the chain plus one |
| `RunCoalescer.ContiguousHasNoBreaks` | hachoir-parser/hachoir_parser/misc/msoffice.py:59-60 | a chain whose every block follows its predecessor has no break |
| `RunCoalescer.CoalesceMaximal` | hachoir-parser/hachoir_parser/misc/msoffice.py:59-79 | for a chain without block 0, runs are maximal: no run starts at the block after the previous run's last block |
| `RunCoalescer.CoalesceSizes` | hachoir-parser/hachoir_parser/misc/msoffice.py:45-79 | for a chain without block 0, the first run's size is blocks × `ss_size` and every later run's size is `sector_size` + (blocks − 1) × `ss_size` |
| `RunCoalescer.CoalesceContiguous` | hachoir-parser/hachoir_parser/misc/msoffice.py:52-68 | a contiguous chain starting at a non-zero block yields exactly one run, spanning the whole chain, of `|chain|` × `ss_size` bits |
| `RunCoalescer.LeadingZeroIsOverwritten` | hachoir-parser/hachoir_parser/misc/msoffice.py:56-63 | chain `[0, 5]` yields the single run `5..5`, with the size of two blocks |
| `RunCoalescer.InnerZeroSplitsContiguousRuns` | hachoir-parser/hachoir_parser/misc/msoffice.py:56-79 | chain `[3, 0, 4]` yields runs `3..3` and `4..4`, which are contiguous with each other; the second run has size `sector_size + ss_size` |
| `PropertyFragments.NameOf` | hachoir-parser/hachoir_parser/misc/msoffice.py:7-32 | a property's prefix is `summary` or `doc_summary` exactly when its stored name is one of the two reserved names; otherwise it is the entry's field name followed by `content` |
| `PropertyFragments.Classify` | hachoir-parser/hachoir_parser/misc/msoffice.py:69-74 | the kind is `Summary` iff the prefix is a summary prefix, and `CompObj` iff it is not and the index is 1; otherwise it is `RawBytes` |
| `PropertyFragments.FieldFor` | hachoir-parser/hachoir_parser/misc/msoffice.py:67-74 | the field for one run seeks to the run's first block, describes `first..previous` with a count equal to the number of blocks in that range, takes the classified kind, and has length `size` in bits for `Summary`/`CompObj` and `size // 8` bytes for `RawBytes` |
| `PropertyFragments.ParseProperty` | hachoir-parser/hachoir_parser/misc/msoffice.py:36-79 | the imperative loop yields exactly the fields of the coalesced runs of the property's chain, or nothing when the size filter rejects the property |
| `PropertyFragments.CreateFields` | hachoir-parser/hachoir_parser/misc/msoffice.py:25-34 | the driver loop yields, in table order, the fields of every property except index 0, each named by `PROPERTY_NAME` or the `content` fallback |
| `PropertyFragments.PropertyFieldsEmpty` | hachoir-parser/hachoir_parser/misc/msoffice.py:38-41 | a property yields no field iff its size is 0 or at least the threshold |
| `PropertyFragments.PropertyFieldCount` | hachoir-parser/hachoir_parser/misc/msoffice.py:52-78 | a handled property yields one field per break of its chain plus one; a contiguous chain yields exactly one field |
| `PropertyFragments.PropertyFieldShape` | hachoir-parser/hachoir_parser/misc/msoffice.py:42-74 | every field is preceded by a seek to its first block, and its description count `previous - first + 1` is at least 1; kind and name follow the classification order: summary prefix → `<prefix>[]`, else index 1 → `comp_obj`, else `RawBytes` `<prefix>[]` |
| `PropertyFragments.PropertyFieldSizes` | hachoir-parser/hachoir_parser/misc/msoffice.py:45-74 | for a chain without block 0, the first field's length is its block count × `ss_size` bits, a later field's is `sector_size` + (count − 1) × `ss_size` bits, and a `RawBytes` field gets that number divided by 8 |
| `PropertyFragments.DescribedBlocksOfRuns` | hachoir-parser/hachoir_parser/misc/msoffice.py:67-74 | the blocks named by the fields' descriptions are the blocks of the runs they were built from |
| `PropertyFragments.PropertyFieldsReassemble` | hachoir-parser/hachoir_parser/misc/msoffice.py:52-78 | for a chain without block 0, the fields' `first..previous` ranges in yield order reproduce the chain exactly |
| `PropertyFragments.SummaryBeatsCompObj` | hachoir-parser/hachoir_parser/misc/msoffice.py:69-72 | at index 1, a reserved name yields `Summary` fields named `<summary prefix>[]`; any other name yields `CompObj` fields named `comp_obj` |
| `PropertyFragments.FieldsComeFromHandledProperties` | hachoir-parser/hachoir_parser/misc/msoffice.py:25-41 | every yielded field comes from a property at index ≥ 1 that passes the size filter |
| `PropertyFragments.RootIsSkipped` | hachoir-parser/hachoir_parser/misc/msoffice.py:26-28 | replacing property 0 by any property leaves the yielded fields unchanged |
| `FragmentGroups.ConcatRawSnoc` | hachoir-parser/hachoir_parser/misc/msoffice.py:85-93 | adding a fragment at the end appends its bytes to the group's concatenation |
| `FragmentGroups.ConcatRawSplit` | hachoir-parser/hachoir_parser/misc/msoffice.py:90-93 | the concatenation is the bytes of the fragments before position k, then fragment k's bytes, then the rest |
| `FragmentGroups.ConcatRawLength` | hachoir-parser/hachoir_parser/misc/msoffice.py:90-93 | the concatenation's length is the sum of the fragments' `size // 8` |
| `FragmentGroups.FragmentGroup.constructor` | hachoir-parser/hachoir_parser/misc/msoffice.py:82-83 | a new group is empty |
| `FragmentGroups.FragmentGroup.Add` | hachoir-parser/hachoir_parser/misc/msoffice.py:85-86 | appends exactly one item at the end, leaves earlier items unchanged, and extends the concatenation by that item's bytes |
| `FragmentGroups.FragmentGroup.CreateInputStream` | hachoir-parser/hachoir_parser/misc/msoffice.py:88-99 | for a non-empty group, the stream's bytes are the members' bytes in insertion order, each member's bytes at its offset, and, when every member holds its `size // 8` bytes, the stream's length is their sum; the stream is tagged with `ParseFragments` and the first member's root; it depends only on the items, so two calls on unchanged items give identical bytes |
| `FragmentGroups.CustomFragment.constructor` | hachoir-parser/hachoir_parser/misc/msoffice.py:102-107 | the fragment registers exactly once: appended to the given group, which did not already hold it, or to a fresh group that then holds only it; it holds `size // 8` bytes |
| `FragmentGroups.CustomFragment.CreateFields` | hachoir-parser/hachoir_parser/misc/msoffice.py:109-110 | one child named `rawdata`, of `size // 8` bytes, holding the fragment's bytes |
| `FragmentGroups.CustomFragment.CreateInputStream` | hachoir-parser/hachoir_parser/misc/msoffice.py:112-113 | the group's stream, in which the fragment's own bytes appear at the offset of its position in the group |

## Left out

- The fuzz harness `hachoir-tools/fuzzer/stress.py` is not modelled. It is made of file and directory I/O, random mutation, wall-clock timeouts, SHA-1 naming, a global logger hook and an endless loop.
- The OLE2 container internals (`getChain`, `ss_fat`, `seekSBlock`, `properties`, `header/threshold`) are inputs. What `getChain` does on a cyclic or out-of-range Mini FAT is outside the model; the model accepts any finite chain.
- The field engine is not modelled: `RootSeekableFieldSet`, `FieldSet`, `RawBytes`, `StringInputStream`, `HachoirParser`, tag plumbing, `ParseFragments.__init__` and `validate`. The leaf parsers `Summary` and `CompObj` (msoffice_summary) are not part of this model either. They appear only as field kinds. The description string is kept as a record of its three numbers, not as formatted text.
- Generators are modelled as finite output sequences. The model does not capture lazy, field-by-field production, nor the fields already yielded before an exception.
- Recursive re-dispatch of the group stream into the parser guesser is not modelled. Only the stream and its tags are.
- `PropertyFragments.ParseProperty` requires a non-empty chain for a property that passes the size filter, because the source fails on `None` arithmetic there.
- `FragmentGroups.FragmentGroup.CreateInputStream` requires a non-empty group, because the source raises `IndexError` on `items[0]`.
- `FragmentGroups.CustomFragment.constructor` requires the parent stream to hold `size // 8` bytes from the fragment's position. The field engine's failure past the end of the stream is not modelled.
- The variable `fragment_group` in `parseProperty` is never used in the source. Nothing in msoffice.py passes a group to `CustomFragment`.
- `RunCoalescer.CoalesceReassembles`: stated only for chains without block 0; with block 0 the runs lose that block, as `RunCoalescer.CoalesceCovers` states.
- `RunCoalescer.CoalesceMaximal`: stated only for chains without block 0; with block 0 two contiguous runs can follow each other, as `RunCoalescer.InnerZeroSplitsContiguousRuns` shows.
- `RunCoalescer.CoalesceSizes`: stated only for chains without block 0; an overwritten block 0 still adds its `ss_size`, as `RunCoalescer.LeadingZeroIsOverwritten` shows.
- `PropertyFragments.PropertyFieldsReassemble`: stated only for chains without block 0, for the same reason as `RunCoalescer.CoalesceReassembles`.
- `PropertyFragments.PropertyFieldSizes`: stated only for chains without block 0, for the same reason as `RunCoalescer.CoalesceSizes`.
