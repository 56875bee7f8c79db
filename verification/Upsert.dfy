/** Writing documents into a vector store by id (VectorStoreHandler.do_upsert). */
module Upsert {
  import opened Options

  /** A row of the data frame: its id may be missing; rest stands for embeddings and metadata. */
  datatype Row<+I, +C, +D> = Row(id: Option<I>, content: C, rest: D)

  /** A row whose id is known. */
  datatype Doc<+I, +C, +D> = Doc(id: I, content: C, rest: D)

  function Filled<I, C, D>(df: seq<Row<I, C, D>>, hash: C -> I): (r: seq<Doc<I, C, D>>)
    ensures |r| == |df|
  {
    seq(|df|, i requires 0 <= i < |df| =>
      Doc(if df[i].id.Some? then df[i].id.value else hash(df[i].content), df[i].content, df[i].rest))
  }

  /** A given id is kept, and only a missing one is made from the content; everything else stays. */
  lemma GivenIdsAreKept<I, C, D>(df: seq<Row<I, C, D>>, hash: C -> I, i: nat)
    requires i < |df|
    ensures Filled(df, hash)[i].content == df[i].content && Filled(df, hash)[i].rest == df[i].rest
    ensures Filled(df, hash)[i].id == match df[i].id case Some(id) => id case None => hash(df[i].content)
  {
  }

  predicate HasId<I(==), C, D>(docs: seq<Doc<I, C, D>>, id: I) {
    exists i :: 0 <= i < |docs| && docs[i].id == id
  }

  /** The first document of every id. */
  function DropDuplicates<I(==), C, D>(docs: seq<Doc<I, C, D>>): seq<Doc<I, C, D>> {
    if docs == [] then []
    else
      var before, last := docs[..|docs| - 1], docs[|docs| - 1];
      DropDuplicates(before) + if HasId(before, last.id) then [] else [last]
  }

  /** The store after the documents were written one after the other under the text of their ids. */
  function Written<I, C, D>(store: map<string, Doc<I, C, D>>, docs: seq<Doc<I, C, D>>, text: I -> string)
    : map<string, Doc<I, C, D>>
  {
    if docs == [] then store
    else
      var last := docs[|docs| - 1];
      Written(store, docs[..|docs| - 1], text)[text(last.id) := last]
  }

  /** The reference: every id, as text, gets the first document that has it. */
  function FirstPerId<I, C, D>(docs: seq<Doc<I, C, D>>, text: I -> string): map<string, Doc<I, C, D>> {
    if docs == [] then map[]
    else
      var before, last := FirstPerId(docs[..|docs| - 1], text), docs[|docs| - 1];
      if text(last.id) in before then before else before[text(last.id) := last]
  }

  function Selected<I, C, D>(docs: seq<Doc<I, C, D>>, text: I -> string, ids: set<string>, isIn: bool): seq<Doc<I, C, D>> {
    if docs == [] then []
    else
      var last := docs[|docs| - 1];
      Selected(docs[..|docs| - 1], text, ids, isIn) + if (text(last.id) in ids) == isIn then [last] else []
  }

  function Texts<I, C, D>(docs: seq<Doc<I, C, D>>, text: I -> string): set<string> {
    set i | 0 <= i < |docs| :: text(docs[i].id)
  }

  /** What a store can do by itself: upsert, update, or only insert and delete. */
  datatype Ability = Upserts | Updates | Inserts

  class VectorStore<I(==), C, D> {
    var docs: map<string, Doc<I, C, D>>

    /** The ids are made text; documents whose id is stored are updated, or, where the store cannot update, all
        ids of the frame are deleted and those documents inserted again; the others are inserted. A store with an
        upsert of its own is left to it. Every way the store is overridden by the documents of the frame and keeps
        everything else. */
    method DoUpsert(df: seq<Row<I, C, D>>, hash: C -> I, text: I -> string, ability: Ability)
      modifies this
      ensures docs == old(docs) + Written(map[], DropDuplicates(Filled(df, hash)), text)
    {
      var filled: seq<Doc<I, C, D>> := [];
      for i := 0 to |df|
        invariant filled == Filled(df[..i], hash)
      {
        filled := filled + [Doc(if df[i].id.Some? then df[i].id.value else hash(df[i].content), df[i].content, df[i].rest)];
      }
      assert df[..|df|] == df;
      var rows := DropDuplicates(filled);
      if ability.Upserts? {
        WrittenOver(docs, rows, text);
        docs := Written(docs, rows, text);
        return;
      }
      var existing := Texts(rows, text) * docs.Keys;
      var toUpdate := Selected(rows, text, existing, true);
      var toInsert := Selected(rows, text, existing, false);
      if toUpdate != [] {
        if ability.Inserts? {
          docs := docs - Texts(rows, text);
        }
        docs := Written(docs, toUpdate, text);
      }
      if toInsert != [] {
        docs := Written(docs, toInsert, text);
      }
      EitherWay(old(docs), rows, text, existing, ability.Updates?);
    }
  }

  // ---- writing in parts ----

  lemma {:induction false} WrittenOver<I, C, D>(store: map<string, Doc<I, C, D>>, docs: seq<Doc<I, C, D>>, text: I -> string)
    ensures Written(store, docs, text) == store + Written(map[], docs, text)
    ensures Written(map[], docs, text).Keys == Texts(docs, text)
  {
    if docs != [] {
      var before, last := docs[..|docs| - 1], docs[|docs| - 1];
      WrittenOver(store, before, text);
      PutRight(store, Written(map[], before, text), text(last.id), last);
      TextsNext(before, last, text);
      assert docs == before + [last];
    }
  }

  lemma TextsNext<I, C, D>(docs: seq<Doc<I, C, D>>, d: Doc<I, C, D>, text: I -> string)
    ensures Texts(docs + [d], text) == Texts(docs, text) + {text(d.id)}
  {
    assert forall i :: 0 <= i < |docs| ==> (docs + [d])[i] == docs[i];
    assert (docs + [d])[|docs|] == d;
  }

  /** The documents of the ids in a set, and the others, written in any order, are all documents written. */
  lemma {:induction false} WrittenInParts<I, C, D>(docs: seq<Doc<I, C, D>>, text: I -> string, ids: set<string>)
    ensures Written(map[], Selected(docs, text, ids, true), text).Keys <= ids
    ensures Written(map[], Selected(docs, text, ids, false), text).Keys !! ids
    ensures Written(map[], docs, text)
         == Written(map[], Selected(docs, text, ids, true), text) + Written(map[], Selected(docs, text, ids, false), text)
  {
    if docs != [] {
      hide Written;
      var before, last := docs[..|docs| - 1], docs[|docs| - 1];
      WrittenInParts(before, text, ids);
      var yes, no := Selected(before, text, ids, true), Selected(before, text, ids, false);
      assert docs == before + [last];
      WrittenAppend(before, last, text);
      if text(last.id) in ids {
        assert Selected(docs, text, ids, true) == yes + [last] && Selected(docs, text, ids, false) == no;
        WrittenAppend(yes, last, text);
        PutLeft(Written(map[], yes, text), Written(map[], no, text), text(last.id), last);
      } else {
        assert Selected(docs, text, ids, true) == yes && Selected(docs, text, ids, false) == no + [last];
        WrittenAppend(no, last, text);
        PutRight(Written(map[], yes, text), Written(map[], no, text), text(last.id), last);
      }
    }
  }

  lemma PutLeft<K, V>(a: map<K, V>, b: map<K, V>, k: K, v: V)
    requires k !in b
    ensures (a + b)[k := v] == a[k := v] + b
  {
  }

  lemma PutRight<K, V>(a: map<K, V>, b: map<K, V>, k: K, v: V)
    ensures (a + b)[k := v] == a + b[k := v]
  {
  }

  lemma WrittenAppend<I, C, D>(docs: seq<Doc<I, C, D>>, d: Doc<I, C, D>, text: I -> string)
    ensures Written(map[], docs + [d], text) == Written(map[], docs, text)[text(d.id) := d]
  {
    assert (docs + [d])[..|docs|] == docs;
  }

  function Stored<I, C, D>(store: map<string, Doc<I, C, D>>, rows: seq<Doc<I, C, D>>, text: I -> string,
                           existing: set<string>, canUpdate: bool): map<string, Doc<I, C, D>> {
    var toUpdate, toInsert := Selected(rows, text, existing, true), Selected(rows, text, existing, false);
    var updated := if toUpdate == [] then store
                   else Written(if canUpdate then store else store - Texts(rows, text), toUpdate, text);
    if toInsert == [] then updated else Written(updated, toInsert, text)
  }

  /** Updating, or deleting and inserting again, leads to the same store. */
  lemma EitherWay<I, C, D>(store: map<string, Doc<I, C, D>>, rows: seq<Doc<I, C, D>>, text: I -> string,
                           existing: set<string>, canUpdate: bool)
    ensures Stored(store, rows, text, existing, canUpdate) == store + Written(map[], rows, text)
  {
    var toUpdate, toInsert := Selected(rows, text, existing, true), Selected(rows, text, existing, false);
    var base := if canUpdate || toUpdate == [] then store else store - Texts(rows, text);
    WrittenInParts(rows, text, existing);
    WrittenOver(map[], rows, text);
    WrittenOver(base, toUpdate, text);
    WrittenOver(Written(base, toUpdate, text), toInsert, text);
    Override(store, base, Written(map[], toUpdate, text), Written(map[], toInsert, text));
  }

  lemma Override<K, V>(store: map<K, V>, base: map<K, V>, a: map<K, V>, b: map<K, V>)
    requires base == store || base == store - (a + b).Keys
    ensures base + a + b == store + (a + b)
  {
  }

  // ---- which document an id ends up with ----

  /** Different ids look different as text. */
  ghost predicate TextsTellApart<I, C, D>(docs: seq<Doc<I, C, D>>, text: I -> string) {
    forall i, j :: 0 <= i < |docs| && 0 <= j < |docs| && text(docs[i].id) == text(docs[j].id) ==> docs[i].id == docs[j].id
  }

  lemma {:induction false} DroppedTexts<I, C, D>(docs: seq<Doc<I, C, D>>, text: I -> string)
    ensures Texts(DropDuplicates(docs), text) == Texts(docs, text)
  {
    if docs != [] {
      var before, last := docs[..|docs| - 1], docs[|docs| - 1];
      DroppedTexts(before, text);
      TextsNext(before, last, text);
      assert before + [last] == docs;
      if HasId(before, last.id) {
        var i :| 0 <= i < |before| && before[i].id == last.id;
        assert text(before[i].id) in Texts(before, text);
        assert DropDuplicates(docs) == DropDuplicates(before) + [] == DropDuplicates(before);
      } else {
        TextsNext(DropDuplicates(before), last, text);
      }
    }
  }

  lemma {:induction false} FirstIsFromTheFrame<I, C, D>(docs: seq<Doc<I, C, D>>, text: I -> string)
    ensures FirstPerId(docs, text).Keys == Texts(docs, text)
    ensures forall t :: t in FirstPerId(docs, text) ==> HasId(docs, FirstPerId(docs, text)[t].id)
  {
    if docs != [] {
      var before, last := docs[..|docs| - 1], docs[|docs| - 1];
      assert before + [last] == docs;
      FirstIsFromTheFrame(before, text);
      TextsNext(before, last, text);
      assert docs[|docs| - 1].id == last.id;
      forall id | HasId(before, id)
        ensures HasId(docs, id)
      {
        var i :| 0 <= i < |before| && before[i].id == id;
        assert docs[i].id == id;
      }
    }
  }

  lemma TellApartAppend<I, C, D>(before: seq<Doc<I, C, D>>, last: Doc<I, C, D>, text: I -> string)
    ensures TextsTellApart(before + [last], text) <==>
      TextsTellApart(before, text) && (HasId(before, last.id) || text(last.id) !in Texts(before, text))
  {
    var docs := before + [last];
    assert forall i :: 0 <= i < |before| ==> docs[i] == before[i];
    assert docs[|before|] == last;
    if TextsTellApart(docs, text) && text(last.id) in Texts(before, text) {
      var i :| 0 <= i < |before| && text(before[i].id) == text(last.id);
      assert docs[i].id == docs[|before|].id;
    }
    if TextsTellApart(before, text) && HasId(before, last.id) {
      var m :| 0 <= m < |before| && before[m].id == last.id;
      assert forall i :: 0 <= i < |before| && text(before[i].id) == text(last.id) ==> before[i].id == before[m].id;
    }
  }

  /** What a text of an id ends up with in every case: of the documents that are the first with their id, the last
      one with that text. */
  lemma {:induction false} LastOfTheFirstWins<I, C, D>(docs: seq<Doc<I, C, D>>, text: I -> string, i: nat)
    requires i < |docs| && !HasId(docs[..i], docs[i].id)
    requires forall k :: i < k < |docs| && text(docs[k].id) == text(docs[i].id) ==> HasId(docs[..k], docs[k].id)
    ensures var w, t := Written(map[], DropDuplicates(docs), text), text(docs[i].id); t in w && w[t] == docs[i]
  {
    var n := |docs| - 1;
    var before, last := docs[..n], docs[n];
    var kept := DropDuplicates(before);
    WrittenAppend(kept, last, text);
    if i == n {
      assert DropDuplicates(docs) == kept + [last];
    } else {
      assert before[..i] == docs[..i];
      forall k | i < k < n && text(before[k].id) == text(before[i].id)
        ensures HasId(before[..k], before[k].id)
      {
        assert before[..k] == docs[..k] && before[k] == docs[k];
      }
      LastOfTheFirstWins(before, text, i);
      if HasId(before, last.id) {
        assert DropDuplicates(docs) == kept + [] == kept;
      }
    }
  }

  /** Every id of the frame ends up with its first document exactly when different ids look different as text;
      otherwise, say for the ids 1 and "1", the last of the confused ids wins. */
  lemma {:induction false} FirstDocumentWinsIff<I, C, D>(docs: seq<Doc<I, C, D>>, text: I -> string)
    ensures Written(map[], DropDuplicates(docs), text) == FirstPerId(docs, text) <==> TextsTellApart(docs, text)
  {
    if docs != [] {
      var before, last := docs[..|docs| - 1], docs[|docs| - 1];
      var kept := DropDuplicates(before);
      assert before + [last] == docs;
      FirstDocumentWinsIff(before, text);
      FirstIsFromTheFrame(before, text);
      WrittenOver(map[], kept, text);
      DroppedTexts(before, text);
      TellApartAppend(before, last, text);
      if HasId(before, last.id) {
        var i :| 0 <= i < |before| && before[i].id == last.id;
        assert text(before[i].id) in Texts(before, text);
        assert DropDuplicates(docs) == kept + [] == kept;
      } else {
        WrittenAppend(kept, last, text);
        if text(last.id) !in Texts(before, text) {
          AddedBoth(Written(map[], kept, text), FirstPerId(before, text), text(last.id), last);
        }
      }
    }
  }

  lemma AddedBoth<K, V>(a: map<K, V>, b: map<K, V>, k: K, v: V)
    requires k !in a && k !in b
    ensures a[k := v] == b[k := v] <==> a == b
  {
    if a[k := v] == b[k := v] {
      assert a == a[k := v] - {k} && b == b[k := v] - {k};
    }
  }
}
