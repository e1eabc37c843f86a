/** `FragmentGroup` and `CustomFragment`: the fragments of one property
    register into a shared group, and the group glues their raw bytes back
    together, in registration order, into one input stream that is tagged for
    re-parsing with `ParseFragments` and the OLE2 root of its first fragment.

    A fragment's `rawdata` bytes are the `size // 8` bytes of the parent
    stream at the fragment's position; the model receives the parent stream
    from that position on as a constructor argument. */
module FragmentGroups {

  newtype byte = x: int | 0 <= x < 256

  /** The parser class named in the stream's tags. */
  datatype ParserClass = ParseFragments

  /** The stream built by `createInputStream`: its bytes, its source label and
      its tags (`class` and `args["ole2"]`). */
  datatype InputStream = InputStream(data: seq<byte>, source: string, parserClass: ParserClass, ole2: object)

  /** The single child field of a fragment. */
  datatype RawBytesField = RawBytesField(name: string, length: nat, value: seq<byte>)

  /** `part` occurs in `data` starting at `offset`. */
  predicate OccursAt(data: seq<byte>, offset: nat, part: seq<byte>) {
    offset + |part| <= |data| && data[offset..offset + |part|] == part
  }

  /** The fragments' raw bytes, concatenated in order. */
  function ConcatRaw(items: seq<CustomFragment>): seq<byte> {
    if items == [] then [] else items[0].rawdata + ConcatRaw(items[1..])
  }

  /** The sum of the fragments' byte sizes, `size // 8` each. */
  function TotalBytes(items: seq<CustomFragment>): nat {
    if items == [] then 0 else items[0].size / 8 + TotalBytes(items[1..])
  }

  /** Appending a fragment appends its bytes to the concatenation. */
  lemma {:induction false} ConcatRawSnoc(items: seq<CustomFragment>, x: CustomFragment)
    ensures ConcatRaw(items + [x]) == ConcatRaw(items) + x.rawdata
  {
    if items != [] {
      assert (items + [x])[1..] == items[1..] + [x];
      ConcatRawSnoc(items[1..], x);
    } else {
      assert [x][1..] == [];
    }
  }

  /** The concatenation splits at any fragment: the bytes before it, its own
      bytes, the bytes after it. */
  lemma {:induction false} ConcatRawSplit(items: seq<CustomFragment>, k: nat)
    requires k < |items|
    ensures ConcatRaw(items) == ConcatRaw(items[..k]) + items[k].rawdata + ConcatRaw(items[k + 1..])
  {
    if k == 0 {
      assert items[..0] == [];
    } else {
      ConcatRawSplit(items[1..], k - 1);
      assert items[1..][..k - 1] == items[1..k];
      assert items[1..][k - 1 + 1..] == items[k + 1..];
      assert items[..k] == [items[0]] + items[1..k];
      assert items[..k][1..] == items[1..k];
    }
  }

  /** The concatenated stream is as long as the fragments' byte sizes add up to. */
  lemma {:induction false} ConcatRawLength(items: seq<CustomFragment>)
    requires forall k :: 0 <= k < |items| ==> |items[k].rawdata| == items[k].size / 8
    ensures |ConcatRaw(items)| == TotalBytes(items)
  {
    if items != [] {
      ConcatRawLength(items[1..]);
    }
  }

  class FragmentGroup {
    var items: seq<CustomFragment>

    constructor ()
      ensures items == []
    {
      items := [];
    }

    /** `add`: append one fragment at the end. */
    method Add(item: CustomFragment)
      modifies this
      ensures items == old(items) + [item]
      ensures ConcatRaw(items) == ConcatRaw(old(items)) + item.rawdata
    {
      ConcatRawSnoc(items, item);
      items := items + [item];
    }

    /** `createInputStream`: join the members' raw bytes in order and tag the
        result for `ParseFragments` with the root of the first member. */
    method CreateInputStream() returns (stream: InputStream)
      requires items != []
      ensures stream.data == ConcatRaw(items)
      ensures forall k :: 0 <= k < |items| ==> OccursAt(stream.data, |ConcatRaw(items[..k])|, items[k].rawdata)
      ensures stream.source == "<fragment group>"
      ensures stream.parserClass == ParseFragments && stream.ole2 == items[0].root
      ensures (forall k :: 0 <= k < |items| ==> |items[k].rawdata| == items[k].size / 8) ==>
        |stream.data| == TotalBytes(items)
    {
      var data: seq<byte> := [];
      for k := 0 to |items|
        invariant data == ConcatRaw(items[..k])
      {
        ConcatRawSnoc(items[..k], items[k]);
        assert items[..k + 1] == items[..k] + [items[k]];
        data := data + items[k].rawdata;
      }
      assert items[..|items|] == items;
      forall k | 0 <= k < |items|
        ensures OccursAt(data, |ConcatRaw(items[..k])|, items[k].rawdata)
      {
        ConcatRawSplit(items, k);
        var before := ConcatRaw(items[..k]);
        assert data == before + items[k].rawdata + ConcatRaw(items[k + 1..]);
        assert data[|before|..|before| + |items[k].rawdata|] == items[k].rawdata;
      }
      if forall k :: 0 <= k < |items| ==> |items[k].rawdata| == items[k].size / 8 {
        ConcatRawLength(items);
      }
      stream := InputStream(data, "<fragment group>", ParseFragments, items[0].root);
    }
  }

  class CustomFragment {
    /** The root of the field tree the fragment was built in (the OLE2 parser). */
    const root: object
    const name: string
    const description: string
    /** Size in bits. */
    const size: nat
    const group: FragmentGroup
    /** The value of the fragment's `rawdata` field. */
    const rawdata: seq<byte>

    /** The fragment is a member of its group and holds `size // 8` bytes. */
    ghost predicate Valid()
      reads group
    {
      this in group.items && |rawdata| == size / 8
    }

    /** `__init__`: build the field, then register into `group`, or into a
        fresh group when none is given. */
    constructor (root: object, name: string, size: nat, description: string, group: FragmentGroup?,
                 streamBytes: seq<byte>)
      requires |streamBytes| >= size / 8
      modifies group
      ensures this.root == root && this.name == name && this.size == size && this.description == description
      ensures rawdata == streamBytes[..size / 8]
      ensures group != null ==> this.group == group && group.items == old(group.items) + [this]
      ensures group != null ==> this !in old(group.items)
      ensures group == null ==> fresh(this.group) && this.group.items == [this]
      ensures Valid()
    {
      this.root := root;
      this.name := name;
      this.size := size;
      this.description := description;
      this.rawdata := streamBytes[..size / 8];
      var g: FragmentGroup;
      if group == null {
        g := new FragmentGroup();
      } else {
        g := group;
      }
      this.group := g;
      new;
      g.Add(this);
    }

    /** `createFields`: one raw-bytes child named "rawdata" of `size // 8`
        bytes, holding the fragment's bytes. */
    function CreateFields(): (fields: seq<RawBytesField>)
      reads group
      requires Valid()
      ensures |fields| == 1 && fields[0].name == "rawdata"
      ensures fields[0].length == size / 8 == |fields[0].value|
      ensures fields[0].value == rawdata
    {
      [RawBytesField("rawdata", size / 8, rawdata)]
    }

    /** `_createInputStream`: the input stream of the fragment's group, in
        which the fragment's own bytes appear at its position. */
    method CreateInputStream() returns (stream: InputStream)
      requires Valid()
      ensures stream.data == ConcatRaw(group.items)
      ensures exists k ::
        0 <= k < |group.items| && group.items[k] == this && OccursAt(stream.data, |ConcatRaw(group.items[..k])|, rawdata)
      ensures stream.parserClass == ParseFragments && stream.ole2 == group.items[0].root
    {
      stream := group.CreateInputStream();
      var k :| 0 <= k < |group.items| && group.items[k] == this;
    }
  }
}
