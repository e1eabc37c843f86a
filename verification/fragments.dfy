/** `ParseFragments`: the property driver (`createFields`), the naming table
    `PROPERTY_NAME`, and `parseProperty`, which turns the Mini FAT chain of one
    property into byte-range fields, one per run of consecutive small blocks.

    The OLE2 container is an external collaborator; it is given to the model
    as an `Ole2` value: its property table, `header/threshold`, `ss_size`,
    `sector_size`, and `getChain(start, ss_fat)` as a function from a start
    block to the chain of block numbers.  The seek `seekSBlock(first)` that
    precedes each field is recorded in the field as `seekBlock`. */
module PropertyFragments {
  import opened RunCoalescer

  /** A property entry of the container's directory: `fieldName` is the
      entry's own field name in the container's field tree (`property.name`),
      `name` its stored name (`property["name"].value`). */
  datatype Property = Property(fieldName: string, name: string, size: nat, start: nat)

  datatype Ole2 = Ole2(
    properties: seq<Property>,
    threshold: nat,
    ssSize: nat,
    sectorSize: nat,
    chainOf: nat -> seq<nat>)

  /** The two reserved stream names and the prefixes they map to. */
  const PropertyName: map<string, string> := map[
    "\U{5}DocumentSummaryInformation" := "doc_summary",
    "\U{5}SummaryInformation" := "summary"]

  predicate IsSummaryPrefix(prefix: string) {
    prefix == "summary" || prefix == "doc_summary"
  }

  /** The name prefix of a property: the reserved mapping, or else the
      entry's field name followed by "content" (the `LookupError` fallback).
      The prefix is a summary prefix exactly when the stored name is one of
      the two reserved names: a fallback prefix ends in "content" and so never
      collides with a reserved prefix. */
  function NameOf(p: Property): (prefix: string)
    ensures IsSummaryPrefix(prefix) <==> p.name in PropertyName
    ensures p.name !in PropertyName ==>
      && |prefix| == |p.fieldName| + |"content"|
      && prefix[..|p.fieldName|] == p.fieldName && prefix[|p.fieldName|..] == "content"
  {
    if p.name in PropertyName then PropertyName[p.name]
    else
      var prefix := p.fieldName + "content";
      assert prefix[|prefix| - 1] == 't';
      assert "summary"[6] == 'y' && "doc_summary"[10] == 'y';
      prefix
  }

  datatype FieldKind = Summary | CompObj | RawBytes

  /** The description `"Small blocks %s..%s (%s)" % (first, previous, count)`. */
  datatype Description = Description(first: nat, previous: nat, count: int)

  /** One yielded field.  `length` is the size handed to the constructor: in
      bits for `Summary` and `CompObj`, in bytes (`size // 8`) for `RawBytes`.
      `seekBlock` is the small block the stream was positioned at before the
      field was built. */
  datatype Field = Field(kind: FieldKind, name: string, desc: Description, length: nat, seekBlock: nat)

  /** The `if`/`elif`/`else` that picks the field type. */
  function Classify(prefix: string, propertyIndex: nat): (kind: FieldKind)
    ensures kind == Summary <==> IsSummaryPrefix(prefix)
    ensures kind == CompObj <==> !IsSummaryPrefix(prefix) && propertyIndex == 1
  {
    if prefix == "summary" || prefix == "doc_summary" then Summary
    else if propertyIndex == 1 then CompObj
    else RawBytes
  }

  /** The field yielded for one run, after `seek(first)`. */
  function FieldFor(run: Run, prefix: string, propertyIndex: nat): (f: Field)
    ensures f.seekBlock == f.desc.first == run.first && f.desc.previous == run.last
    ensures run.first <= run.last ==> f.desc.count == |Range(run.first, run.last)|
    ensures f.kind == Classify(prefix, propertyIndex)
    ensures f.length == if f.kind == RawBytes then run.size / 8 else run.size
  {
    var desc := Description(run.first, run.last, BlockCount(run));
    match Classify(prefix, propertyIndex)
    case Summary => Field(Summary, prefix + "[]", desc, run.size, run.first)
    case CompObj => Field(CompObj, "comp_obj", desc, run.size, run.first)
    case RawBytes => Field(RawBytes, prefix + "[]", desc, run.size / 8, run.first)
  }

  function FieldsFor(runs: seq<Run>, prefix: string, propertyIndex: nat): (fields: seq<Field>)
    ensures |fields| == |runs|
  {
    seq(|runs|, k requires 0 <= k < |runs| => FieldFor(runs[k], prefix, propertyIndex))
  }

  lemma FieldsForSnoc(runs: seq<Run>, r: Run, prefix: string, propertyIndex: nat)
    ensures FieldsFor(runs + [r], prefix, propertyIndex)
         == FieldsFor(runs, prefix, propertyIndex) + [FieldFor(r, prefix, propertyIndex)]
  {
  }

  /** The size filter: a property of size 0, or of size at least the
      threshold, is not handled here. */
  predicate Handled(p: Property, threshold: nat) {
    p.size != 0 && p.size < threshold
  }

  /** The fields `parseProperty` yields for one property. */
  function PropertyFields(ole: Ole2, propertyIndex: nat, p: Property, prefix: string): seq<Field>
    requires Handled(p, ole.threshold) ==> ole.chainOf(p.start) != []
  {
    if !Handled(p, ole.threshold) then []
    else FieldsFor(Coalesce(ole.chainOf(p.start), ole.ssSize, ole.sectorSize), prefix, propertyIndex)
  }

  /** `parseProperty`: the size filter, then the `while True` loop over the
      chain, yielding a field whenever a run is closed by a non-contiguous
      block or by the end of the chain. */
  method ParseProperty(ole: Ole2, propertyIndex: nat, property: Property, namePrefix: string)
    returns (fields: seq<Field>)
    requires Handled(property, ole.threshold) ==> ole.chainOf(property.start) != []
    ensures fields == PropertyFields(ole, propertyIndex, property, namePrefix)
  {
    fields := [];
    if property.size == 0 {
      return;
    }
    if property.size >= ole.threshold {
      return;
    }
    var first: Option<nat> := None;
    var previous: Option<nat> := None;
    var size: nat := 0;
    var chain := ole.chainOf(property.start);
    var blocksize := ole.ssSize;
    var pos := 0;  // how many blocks `chain.next()` has delivered
    ghost var runs: seq<Run> := [];
    while true
      invariant pos <= |chain|
      invariant Scan(chain[..pos], blocksize, ole.sectorSize) == ScanState(runs, first, previous, size)
      invariant fields == FieldsFor(runs, namePrefix, propertyIndex)
      decreases |chain| - pos
    {
      var block: Option<nat>;
      if pos < |chain| {
        var b := chain[pos];
        assert chain[..pos + 1][..pos] == chain[..pos];
        pos := pos + 1;
        var contiguous := false;
        if !Truthy(first) {
          first := Some(b);
          contiguous := true;
        }
        if Truthy(previous) && b == previous.value + 1 {
          contiguous := true;
        }
        if contiguous {
          previous := Some(b);
          size := size + blocksize;
          continue;
        }
        block := Some(b);
      } else {
        block := None;
        assert chain[..pos] == chain;
      }
      var run := Run(first.value, previous.value, size);
      FieldsForSnoc(runs, run, namePrefix, propertyIndex);
      fields := fields + [FieldFor(run, namePrefix, propertyIndex)];
      runs := runs + [run];
      if block.None? {
        break;
      }
      first := block;
      previous := block;
      size := ole.sectorSize;
    }
  }

  // ---------------------------------------------------------------------
  // The property driver

  /** Every handled property other than the root has a chain to walk. */
  predicate ChainsPresent(ole: Ole2) {
    forall i :: 1 <= i < |ole.properties| && Handled(ole.properties[i], ole.threshold) ==>
      ole.chainOf(ole.properties[i].start) != []
  }

  function FieldsOfProperty(ole: Ole2, i: nat): seq<Field>
    requires 1 <= i < |ole.properties| && ChainsPresent(ole)
  {
    PropertyFields(ole, i, ole.properties[i], NameOf(ole.properties[i]))
  }

  /** The fields yielded for the first `n` entries of the property table;
      entry 0 (the root) contributes nothing. */
  function FieldsUpTo(ole: Ole2, n: nat): seq<Field>
    requires n <= |ole.properties| && ChainsPresent(ole)
  {
    if n == 0 then []
    else FieldsUpTo(ole, n - 1) + (if n - 1 == 0 then [] else FieldsOfProperty(ole, n - 1))
  }

  /** `createFields`: walk the property table in order, skip index 0, name
      each property and yield what `parseProperty` yields for it. */
  method CreateFields(ole: Ole2) returns (fields: seq<Field>)
    requires ChainsPresent(ole)
    ensures fields == FieldsUpTo(ole, |ole.properties|)
  {
    fields := [];
    for index := 0 to |ole.properties|
      invariant fields == FieldsUpTo(ole, index)
    {
      if index == 0 {
        continue;
      }
      var property := ole.properties[index];
      var name := NameOf(property);
      var more := ParseProperty(ole, index, property, name);
      fields := fields + more;
    }
  }

  // ---------------------------------------------------------------------
  // Properties of parseProperty and createFields

  /** A property yields no field exactly when it fails the size filter. */
  lemma PropertyFieldsEmpty(ole: Ole2, propertyIndex: nat, p: Property, prefix: string)
    requires Handled(p, ole.threshold) ==> ole.chainOf(p.start) != []
    ensures PropertyFields(ole, propertyIndex, p, prefix) == [] <==> (p.size == 0 || p.size >= ole.threshold)
  {
  }

  /** A handled property yields one field per run: one per break of its
      chain plus one; a contiguous chain yields exactly one field. */
  lemma PropertyFieldCount(ole: Ole2, propertyIndex: nat, p: Property, prefix: string)
    requires Handled(p, ole.threshold) && ole.chainOf(p.start) != []
    ensures |PropertyFields(ole, propertyIndex, p, prefix)| == Breaks(ole.chainOf(p.start)) + 1
    ensures Contiguous(ole.chainOf(p.start)) ==> |PropertyFields(ole, propertyIndex, p, prefix)| == 1
  {
    CoalesceCount(ole.chainOf(p.start), ole.ssSize, ole.sectorSize);
    if Contiguous(ole.chainOf(p.start)) {
      ContiguousHasNoBreaks(ole.chainOf(p.start));
    }
  }

  /** Every field of a property is positioned at the first block it
      describes, describes at least one block, and is typed and named by the
      classification order: summary prefix, then index 1, then raw bytes. */
  lemma PropertyFieldShape(ole: Ole2, propertyIndex: nat, p: Property, prefix: string)
    requires Handled(p, ole.threshold) ==> ole.chainOf(p.start) != []
    ensures forall f :: f in PropertyFields(ole, propertyIndex, p, prefix) ==>
      && f.seekBlock == f.desc.first
      && f.desc.count == f.desc.previous - f.desc.first + 1 >= 1
      && (f.kind == Summary <==> IsSummaryPrefix(prefix))
      && (f.kind == CompObj <==> !IsSummaryPrefix(prefix) && propertyIndex == 1)
      && f.name == (if f.kind == CompObj then "comp_obj" else prefix + "[]")
  {
    if Handled(p, ole.threshold) {
      var runs := Coalesce(ole.chainOf(p.start), ole.ssSize, ole.sectorSize);
      forall f | f in PropertyFields(ole, propertyIndex, p, prefix)
        ensures f.seekBlock == f.desc.first && f.desc.count == f.desc.previous - f.desc.first + 1 >= 1
      {
        var k :| 0 <= k < |runs| && f == FieldFor(runs[k], prefix, propertyIndex);
        assert runs[k].first <= runs[k].last;
      }
    }
  }

  /** For a chain without block 0, each field's length follows the size law
      in terms of the blocks it describes: the first field accumulates
      `ss_size` bits per block, a later one starts from `sector_size`; a
      `Summary` or `CompObj` field gets that many bits, a `RawBytes` field
      that many bits divided by 8, in bytes. */
  lemma PropertyFieldSizes(ole: Ole2, propertyIndex: nat, p: Property, prefix: string)
    requires Handled(p, ole.threshold) && ole.chainOf(p.start) != []
    requires ZeroFree(ole.chainOf(p.start))
    ensures var fs := PropertyFields(ole, propertyIndex, p, prefix);
      forall k :: 0 <= k < |fs| ==>
        var bits := if k == 0 then fs[k].desc.count * ole.ssSize
                    else ole.sectorSize + (fs[k].desc.count - 1) * ole.ssSize;
        fs[k].length == if fs[k].kind == RawBytes then bits / 8 else bits
  {
    CoalesceSizes(ole.chainOf(p.start), ole.ssSize, ole.sectorSize);
  }

  /** The blocks the fields' descriptions name, `first..previous` of each
      field in yield order. */
  function DescribedBlocks(fields: seq<Field>): seq<nat> {
    if fields == [] then []
    else
      var last := fields[|fields| - 1];
      DescribedBlocks(fields[..|fields| - 1]) + Range(last.desc.first, last.desc.previous)
  }

  lemma {:induction false} DescribedBlocksOfRuns(runs: seq<Run>, prefix: string, propertyIndex: nat)
    ensures DescribedBlocks(FieldsFor(runs, prefix, propertyIndex)) == Flatten(runs)
  {
    if runs != [] {
      var init := runs[..|runs| - 1];
      DescribedBlocksOfRuns(init, prefix, propertyIndex);
      FieldsForSnoc(init, runs[|runs| - 1], prefix, propertyIndex);
      assert init + [runs[|runs| - 1]] == runs;
      SnocPrefix(FieldsFor(init, prefix, propertyIndex), FieldFor(runs[|runs| - 1], prefix, propertyIndex));
    }
  }

  /** For a chain without block 0, the fields' descriptions name every block
      of the chain, in chain order, with nothing added or left out. */
  lemma PropertyFieldsReassemble(ole: Ole2, propertyIndex: nat, p: Property, prefix: string)
    requires Handled(p, ole.threshold) && ole.chainOf(p.start) != []
    requires ZeroFree(ole.chainOf(p.start))
    ensures DescribedBlocks(PropertyFields(ole, propertyIndex, p, prefix)) == ole.chainOf(p.start)
  {
    var chain := ole.chainOf(p.start);
    DescribedBlocksOfRuns(Coalesce(chain, ole.ssSize, ole.sectorSize), prefix, propertyIndex);
    CoalesceReassembles(chain, ole.ssSize, ole.sectorSize);
  }

  /** A property at index 1 whose stored name is reserved yields `Summary`
      fields, not `CompObj`: the summary test comes first.  Any other
      property at index 1 yields only `comp_obj` fields. */
  lemma SummaryBeatsCompObj(ole: Ole2, p: Property)
    requires Handled(p, ole.threshold) ==> ole.chainOf(p.start) != []
    ensures forall f :: f in PropertyFields(ole, 1, p, NameOf(p)) ==>
      if p.name in PropertyName then f.kind == Summary && f.name == PropertyName[p.name] + "[]"
      else f.kind == CompObj && f.name == "comp_obj"
  {
    PropertyFieldShape(ole, 1, p, NameOf(p));
  }

  /** Every field `createFields` yields comes from a handled property at an
      index other than 0. */
  lemma {:induction false} FieldsComeFromHandledProperties(ole: Ole2, n: nat, f: Field)
    requires n <= |ole.properties| && ChainsPresent(ole)
    requires f in FieldsUpTo(ole, n)
    ensures exists i :: 1 <= i < n && Handled(ole.properties[i], ole.threshold) && f in FieldsOfProperty(ole, i)
  {
    var i := n - 1;
    var last := if i == 0 then [] else FieldsOfProperty(ole, i);
    assert FieldsUpTo(ole, n) == FieldsUpTo(ole, i) + last;
    if f in FieldsUpTo(ole, i) {
      FieldsComeFromHandledProperties(ole, i, f);
    } else {
      assert f in last;
      assert i != 0 && Handled(ole.properties[i], ole.threshold);
    }
  }

  /** The root entry (index 0) never matters: replacing it by any other
      property leaves the yielded fields unchanged. */
  lemma {:induction false} RootIsSkipped(ole: Ole2, root: Property, n: nat)
    requires 0 < |ole.properties| && n <= |ole.properties| && ChainsPresent(ole)
    ensures ChainsPresent(ole.(properties := ole.properties[0 := root]))
    ensures FieldsUpTo(ole.(properties := ole.properties[0 := root]), n) == FieldsUpTo(ole, n)
  {
    var ole' := ole.(properties := ole.properties[0 := root]);
    assert ChainsPresent(ole') by {
      forall i | 1 <= i < |ole'.properties| && Handled(ole'.properties[i], ole'.threshold)
        ensures ole'.chainOf(ole'.properties[i].start) != []
      {
        assert ole'.properties[i] == ole.properties[i];
      }
    }
    if n > 0 {
      RootIsSkipped(ole, root, n - 1);
      if n - 1 != 0 {
        assert ole'.properties[n - 1] == ole.properties[n - 1];
        assert FieldsOfProperty(ole', n - 1) == FieldsOfProperty(ole, n - 1);
      }
    }
  }
}
