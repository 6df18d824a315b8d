/** pb_field_iter_t: a cyclic walk over the packed descriptors of a message. */
module FieldIterator {
  import Schema
  import Wire
  import opened Descriptor

  /** Fields appear in the order of their numbers. */
  predicate Sorted(list: seq<Entry>) {
    |list| > 1 ==> list[0].info.tag < list[1].info.tag && Sorted(list[1..])
  }

  lemma {:induction false} SortedTags(list: seq<Entry>, i: nat, j: nat)
    requires Sorted(list) && i < j < |list|
    ensures list[i].info.tag < list[j].info.tag
  {
    if i > 0 {
      SortedTags(list[1..], i - 1, j - 1);
    } else if j > 1 {
      SortedTags(list[1..], 0, j - 1);
    }
  }

  // Reading the table

  method ReadLead(words: seq<nat>, k: nat, ghost list: seq<Entry>, ghost i: nat)
    returns (length: nat, kind: nat, low: nat)
    requires AllFit(list) && i < |list| && words == Words(list) && k == Offset(list, i)
    ensures length == Length(list[i].width) && kind == list[i].info.kind && low == list[i].info.tag % 64
  {
    EntryAt(words, list, i);
    length, kind, low := Length(WidthOf(words[k])), KindOf(words[k]), TagBitsOf(words[k]);
  }

  method ReadInfo(words: seq<nat>, k: nat, ghost list: seq<Entry>, ghost i: nat) returns (info: Info)
    requires AllFit(list) && i < |list| && words == Words(list) && k == Offset(list, i)
    ensures info == list[i].info
  {
    EntryAt(words, list, i);
    info := Unpack(words[k..k + Length(WidthOf(words[k]))]);
  }

  /** A regular field with the given number. */
  predicate IsField(e: Entry, tag: nat) {
    e.info.tag == tag && !IsExtension(e.info.kind)
  }

  class FieldIter {
    const words: seq<nat>
    const fieldCount: nat
    const largestTag: nat
    ghost const list: seq<Entry>

    var index: nat
    var infoIndex: nat
    var submessageIndex: nat
    var requiredIndex: nat
    var current: Info

    /** The message type: a table packed from a list of fields. */
    ghost predicate Table() {
      && list != [] && AllFit(list) && Sorted(list)
      && words == Words(list) && fieldCount == |list| && largestTag == list[|list| - 1].info.tag
    }

    /** The side indices are the prefix sums of the entries passed so far. */
    ghost predicate Indexed()
      reads this
    {
      && index < |list|
      && infoIndex == Offset(list, index)
      && submessageIndex == Submessages(list, index)
      && requiredIndex == RequiredFields(list, index)
    }

    ghost predicate Valid()
      reads this
    {
      Table() && Indexed() && current == list[index].info
    }

    /** pb_field_iter_begin. */
    constructor Begin(words: seq<nat>, fieldCount: nat, largestTag: nat, ghost list: seq<Entry>)
      requires list != [] && AllFit(list) && Sorted(list)
      requires words == Words(list) && fieldCount == |list| && largestTag == list[|list| - 1].info.tag
      ensures Valid() && index == 0 && this.list == list
    {
      this.words, this.fieldCount, this.largestTag, this.list := words, fieldCount, largestTag, list;
      index, infoIndex, submessageIndex, requiredIndex := 0, 0, 0, 0;
      new;
      current := ReadInfo(words, 0, list, 0);
    }

    /** load_descriptor_values. */
    method Load() returns (ok: bool)
      requires Table() && (index < |list| ==> Indexed())
      modifies this`current
      ensures ok <==> index < |list|
      ensures ok ==> Valid()
    {
      if index >= fieldCount {
        return false;
      }
      current := ReadInfo(words, infoIndex, list, index);
      ok := true;
    }

    /** advance_iterator: on to the next field, or around to the first. */
    method Advance()
      requires Table() && index <= |list| && (index < |list| ==> Indexed())
      modifies this`index, this`infoIndex, this`submessageIndex, this`requiredIndex
      ensures Indexed() && index == if old(index) + 1 < |list| then old(index) + 1 else 0
    {
      index := index + 1;
      if index >= fieldCount {
        index, infoIndex, submessageIndex, requiredIndex := 0, 0, 0, 0;
      } else {
        OffsetStep(list, index - 1);
        var length, kind, _ := ReadLead(words, infoIndex, list, index - 1);
        infoIndex := infoIndex + length;
        requiredIndex := requiredIndex + if IsRequired(kind) then 1 else 0;
        submessageIndex := submessageIndex + if IsSubmessage(kind) then 1 else 0;
      }
    }

    /** pb_field_iter_next: false once the walk is back at the first field. */
    method Next() returns (more: bool)
      requires Valid()
      modifies this
      ensures Valid() && index == if old(index) + 1 < |list| then old(index) + 1 else 0
      ensures more <==> index != 0
    {
      Advance();
      var _ := Load();
      more := index != 0;
    }

    /** Positions that the search has been at since it left `start`; `below` when it restarted from the first field. */
    static predicate Passed(j: nat, start: nat, at: nat, below: bool) {
      if below then j <= at
      else if at > start then start < j <= at
      else j > start || j <= at
    }

    /** The field under the cursor is the one sought; its low tag bits are compared before it is unpacked. */
    method Check(tag: nat) returns (found: bool)
      requires Table() && Indexed()
      modifies this`current
      ensures found <==> IsField(list[index], tag)
      ensures found ==> Valid()
    {
      var _, _, low := ReadLead(words, infoIndex, list, index);
      if low == tag % 64 {
        var _ := Load();
        found := current.tag == tag && !IsExtension(current.kind);
      } else {
        found := false;
      }
    }

    /**
     * pb_field_iter_find: from any position it finds the field that a linear search would find, and
     * is back where it was when there is none. Only a cursor that already is at an extension
     * placeholder accepts that placeholder's number.
     */
    method Find(tag: nat) returns (found: bool)
      requires Valid()
      modifies this
      ensures Valid()
      ensures found <==> old(current.tag) == tag || exists j :: 0 <= j < |list| && IsField(list[j], tag)
      ensures found ==> current.tag == tag
      ensures !found ==> index == old(index)
    {
      if current.tag == tag {
        return true;
      }
      if tag > largestTag {
        forall j | 0 <= j < |list|
          ensures !IsField(list[j], tag)
        {
          BeyondLast(list, j, tag);
        }
        return false;
      }
      var start := index;
      var below := tag < current.tag;
      if below {
        index := fieldCount;
      }
      Advance();
      while true
        invariant Table() && Indexed() && (below ==> index <= start)
        invariant forall j :: 0 <= j < |list| && Passed(j, start, index, below) && j != index ==> !IsField(list[j], tag)
        decreases if index <= start then start - index else start + |list| - index
      {
        found := Check(tag);
        if found {
          return true;
        }
        if index == start {
          break;
        }
        Advance();
      }
      if below {
        forall j | start <= j < |list|
          ensures !IsField(list[j], tag)
        {
          BeforeStart(list, start, j, tag);
        }
      }
      var _ := Load();
      found := false;
    }
  }

  lemma {:induction false} BeyondLast(list: seq<Entry>, j: nat, tag: nat)
    requires j < |list| && Sorted(list) && list[|list| - 1].info.tag < tag
    ensures !IsField(list[j], tag)
  {
    if j < |list| - 1 {
      SortedTags(list, j, |list| - 1);
    }
  }

  lemma {:induction false} BeforeStart(list: seq<Entry>, start: nat, j: nat, tag: nat)
    requires start <= j < |list| && Sorted(list) && tag < list[start].info.tag
    ensures !IsField(list[j], tag)
  {
    if j > start {
      SortedTags(list, start, j);
    }
  }

  // The decoder's search

  /** A table packed for a message type without extensions. */
  predicate Describes(list: seq<Entry>, fields: Schema.Fields) {
    && |list| == |fields|
    && forall i :: 0 <= i < |list| ==> list[i].info.tag == fields[i].tag && !IsExtension(list[i].info.kind)
  }

  lemma {:induction false} FindInTable(list: seq<Entry>, fields: Schema.Fields, tag: nat, i: nat)
    requires Describes(list, fields) && Sorted(list) && i < |list| && list[i].info.tag == tag
    ensures Wire.Find(fields, tag) == i
  {
    var j := Wire.Find(fields, tag);
    if j < i {
      SortedTags(list, j, i);
    }
  }

  /** From any position, the iterator's search is the one by which the decoder picks the field of a record. */
  method Locate(iter: FieldIter, fields: Schema.Fields, tag: nat) returns (i: nat)
    requires iter.Valid() && Describes(iter.list, fields)
    modifies iter
    ensures iter.Valid() && i == Wire.Find(fields, tag)
    ensures iter.index == if i < |fields| then i else old(iter.index)
  {
    var found := iter.Find(tag);
    if found {
      FindInTable(iter.list, fields, tag, iter.index);
      i := iter.index;
    } else {
      ghost var j := Wire.Find(fields, tag);
      assert j < |fields| ==> IsField(iter.list[j], tag);
      i := iter.fieldCount;
    }
  }
}
