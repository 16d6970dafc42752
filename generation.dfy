/**
 * What the two instruction-generation scripts share
 * (`anthropic_prompt_by_function_from_original_code.py` and
 * `anthropic_prompt_by_whole_code.py` hold identical copies): the documents
 * they read, the processed-ID file, the last clean-up step of the model's
 * reply, and the batched writing of the output records.
 */
module Generation {
  import opened Wrappers
  import opened Text
  import opened Json
  import opened Streams

  /**
   * A document of the collection: `str(doc.get('_id'))` and
   * `doc.get('content', '')`. A document without `_id` gets the id "None".
   */
  datatype Doc = Doc(id: string, content: string)

  /** `batch_save_jsonl_size` */
  const BATCH_SIZE: nat := 30

  /**
   * `load_processed_ids`: the stripped non-blank lines of the processed-ID
   * file, or nothing when there is no file.
   */
  method LoadProcessedIds(file: Option<seq<string>>) returns (ids: set<string>)
    ensures file.None? ==> ids == {}
    ensures file.Some? ==> forall id :: id in ids <==> id != [] && exists l :: l in file.value && Strip(l) == id
  {
    ids := {};
    if file.None? {
      return;
    }
    var lines := file.value;
    for k := 0 to |lines|
      invariant forall id :: id in ids <==> id != [] && exists l :: l in lines[..k] && Strip(l) == id
    {
      assert lines[..k + 1] == lines[..k] + [lines[k]];
      var docId := Strip(lines[k]);
      if docId != [] {
        ids := ids + {docId};
      }
    }
    assert lines[..|lines|] == lines;
  }

  /** Every loaded id is stripped, so a line that names it again adds nothing new. */
  lemma LoadedIdsStripped(lines: seq<string>, id: string)
    requires exists l :: l in lines && Strip(l) == id
    ensures Strip(id) == id
  {
    var l :| l in lines && Strip(l) == id;
    StripIdempotent(l);
  }

  /**
   * The end of `clean_llm_response`: one pair of surrounding double quotes is
   * removed, then the text is stripped.
   */
  function Unquote(s: string): string {
    var c := Strip(s);
    var inner := if StartsWith(c, "\"") && EndsWith(c, "\"") then PySlice(c, 1, -1) else c;
    Strip(inner)
  }

  /** The cleaned reply has no surrounding whitespace and is never longer than the reply. */
  lemma UnquoteStripped(s: string)
    ensures Strip(Unquote(s)) == Unquote(s)
    ensures |Unquote(s)| <= |s|
  {
    var c := Strip(s);
    var inner := if StartsWith(c, "\"") && EndsWith(c, "\"") then PySlice(c, 1, -1) else c;
    StripIdempotent(inner);
  }

  /** A quoted reply loses its quotes, and only them: what is left is the stripped text inside. */
  lemma UnquoteQuoted(x: string)
    ensures Unquote("\"" + x + "\"") == Strip(x)
  {
    var q := "\"" + x + "\"";
    assert q[0] == '"' && q[|q| - 1] == '"';
    assert q[1..|q| - 1] == x;
    UnquoteWrapped(q, x);
  }

  /** Both ends of `q` are double quotes around `x`. */
  lemma UnquoteWrapped(q: string, x: string)
    requires |q| >= 2 && q[0] == '"' && q[|q| - 1] == '"' && q[1..|q| - 1] == x
    ensures Unquote(q) == Strip(x)
  {
    assert !IsSpace('"');
    StripOfTrimmed(q);
    assert StartsWith(q, "\"") by { assert q[..1] == "\""; }
    assert EndsWith(q, "\"") by { assert q[|q| - 1..] == "\""; }
    assert PyIndex(-1, |q|) == |q| - 1;
  }

  /**
   * What has been written in batches so far: every batch written inside the
   * loop holds exactly `BATCH_SIZE` records.
   */
  predicate FullBatches<T>(batches: seq<seq<T>>) {
    forall k :: 0 <= k < |batches| ==> |batches[k]| == BATCH_SIZE
  }

  /** The final write of what is left in the buffer, if anything. */
  function Remainder<T>(buffer: seq<T>): (r: seq<seq<T>>)
    ensures Flatten(r) == buffer
    ensures |r| <= 1 && forall k :: 0 <= k < |r| ==> r[k] != []
  {
    if buffer == [] then [] else [buffer]
  }

  /** One more write after the batches: the output is the batches' records and then the new ones. */
  lemma FlattenSnocOne<T>(batches: seq<seq<T>>, b: seq<T>)
    ensures Flatten(batches + [b]) == Flatten(batches) + b
  {
    assert (batches + [b])[..|batches|] == batches;
  }

  /** The buffer check as a value: the batches and the buffer after it. */
  function Flushed<T>(batches: seq<seq<T>>, buffer: seq<T>): (r: (seq<seq<T>>, seq<T>))
    ensures Flatten(r.0) + r.1 == Flatten(batches) + buffer
    ensures FullBatches(batches) ==> FullBatches(r.0)
    ensures r.0 == batches <==> |buffer| < BATCH_SIZE
  {
    if |buffer| >= BATCH_SIZE then
      FlattenSnocOne(batches, buffer[..BATCH_SIZE]);
      assert buffer == buffer[..BATCH_SIZE] + buffer[BATCH_SIZE..];
      (batches + [buffer[..BATCH_SIZE]], buffer[BATCH_SIZE..])
    else (batches, buffer)
  }

  /**
   * The buffer check after a document: once the buffer holds `BATCH_SIZE`
   * records, its first `BATCH_SIZE` go out as one batch and the rest stay.
   */
  method FlushFull<T>(batches: seq<seq<T>>, buffer: seq<T>) returns (batches': seq<seq<T>>, buffer': seq<T>)
    requires FullBatches(batches)
    ensures FullBatches(batches')
    ensures Flatten(batches') + buffer' == Flatten(batches) + buffer
    ensures |buffer| < BATCH_SIZE ==> batches' == batches && buffer' == buffer
    ensures |buffer| >= BATCH_SIZE ==> batches' == batches + [buffer[..BATCH_SIZE]] && buffer' == buffer[BATCH_SIZE..]
  {
    batches', buffer' := batches, buffer;
    if |buffer| >= BATCH_SIZE {
      FlattenSnocOne(batches, buffer[..BATCH_SIZE]);
      assert buffer == buffer[..BATCH_SIZE] + buffer[BATCH_SIZE..];
      batches' := batches + [buffer[..BATCH_SIZE]];
      buffer' := buffer[BATCH_SIZE..];
    }
  }

  /**
   * The batches written while documents were processed, followed by the
   * final remainder: every write but the last holds exactly `BATCH_SIZE`
   * records, and none is empty.
   */
  lemma WritesShape<T>(batches: seq<seq<T>>, buffer: seq<T>)
    requires FullBatches(batches)
    ensures var writes := batches + Remainder(buffer);
      && Flatten(writes) == Flatten(batches) + buffer
      && (forall k :: 0 <= k < |writes| - 1 ==> |writes[k]| == BATCH_SIZE)
      && (forall k :: 0 <= k < |writes| ==> writes[k] != [])
  {
    FlattenAppend(batches, Remainder(buffer));
  }
}
