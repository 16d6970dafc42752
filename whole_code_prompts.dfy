/**
 * Instruction data from whole files (`anthropic_prompt_by_whole_code.py`):
 * each document's code is sent to the model in one piece and, when the model
 * answers with a usable request, becomes one chat record. Unlike the
 * function-level script, every document visited is marked processed, whether
 * it succeeded or not.
 *
 * The model is the parameter `llm` (its reply to a prompt, after the
 * meta-commentary patterns have been removed).
 */
module WholeCodePrompts {
  import opened Wrappers
  import opened Text
  import opened Json
  import opened Streams
  import opened Chat
  import opened Generation

  const WHOLE_PROMPT_HEAD: string :=
    "Given the following complete Python code, please generate a natural user request (input) in English that describes its overall functionality, purpose, and what the entire script or module does at a high level:\n\n[CODE]\n"

  function WholePrompt(code: string): string {
    WHOLE_PROMPT_HEAD + code + "\n[/CODE]"
  }

  /** The limit on the stripped code, `1500 * 40` characters. */
  const MAX_CODE: nat := 60000

  /** `process_whole_code_to_jsonl_entry` */
  function WholeCodeEntry(raw: string, llm: string -> string): (r: seq<Json>)
    ensures |r| <= 1
  {
    var code := Strip(raw);
    if code == [] || |code| > MAX_CODE then []
    else
      var instruction := Unquote(llm(WholePrompt(code)));
      if instruction == [] then [] else [UserAssistant(instruction, code)]
  }

  /**
   * Blank code and code over the limit yield nothing without asking the
   * model; otherwise the result is empty exactly when the cleaned request is,
   * and the one record pairs the stripped, non-empty request with the
   * stripped code.
   */
  lemma WholeCodeEntryMeaning(raw: string, llm: string -> string)
    ensures IsBlank(raw) || |Strip(raw)| > MAX_CODE ==> WholeCodeEntry(raw, llm) == []
    ensures !IsBlank(raw) && |Strip(raw)| <= MAX_CODE ==>
      var instruction := Unquote(llm(WholePrompt(Strip(raw))));
      && (WholeCodeEntry(raw, llm) == [] <==> instruction == [])
      && (instruction != [] ==>
            WholeCodeEntry(raw, llm) == [UserAssistant(instruction, Strip(raw))] && Strip(instruction) == instruction)
  {
    var code := Strip(raw);
    if !IsBlank(raw) && |code| <= MAX_CODE {
      var instruction := Unquote(llm(WholePrompt(code)));
      UnquoteStripped(llm(WholePrompt(code)));
      if instruction != [] {
        assert WholeCodeEntry(raw, llm) == [UserAssistant(instruction, code)];
      }
    }
  }

  /** The loop's bookkeeping: the processed ids, the ids appended to the processed-ID file, and the records produced. */
  datatype State = State(processed: set<string>, marked: seq<string>, entries: seq<Json>)

  /**
   * One document, given the records its content yields: an id already
   * processed is skipped; any other document is marked processed, and its
   * records, if its content is not blank, join the output.
   */
  function Visit(s: State, doc: Doc, produce: string -> seq<Json>): State {
    if doc.id in s.processed then s
    else if IsBlank(doc.content) then State(s.processed + {doc.id}, s.marked + [doc.id], s.entries)
    else State(s.processed + {doc.id}, s.marked + [doc.id], s.entries + produce(doc.content))
  }

  /** The state after the documents, starting from the loaded ids. */
  function Visits(processed: set<string>, docs: seq<Doc>, produce: string -> seq<Json>): State {
    if docs == [] then State(processed, [], [])
    else Visit(Visits(processed, docs[..|docs| - 1], produce), docs[|docs| - 1], produce)
  }

  /** `process_whole_code_to_jsonl_entry` as the records of a document's content. */
  function Producer(llm: string -> string): string -> seq<Json> {
    content => WholeCodeEntry(content, llm)
  }

  /**
   * Every document visited ends up processed, so none is sent to the model
   * twice across runs; the processed set is the loaded ids plus the marked
   * ones, each marked once and none of them loaded.
   */
  lemma {:induction false} VisitsMarkAll(processed: set<string>, docs: seq<Doc>, produce: string -> seq<Json>)
    ensures var s := Visits(processed, docs, produce);
      && (forall d :: d in docs ==> d.id in s.processed)
      && s.processed == processed + (set id | id in s.marked)
      && (forall id :: id in s.marked ==> id !in processed)
      && (forall i, j :: 0 <= i < j < |s.marked| ==> s.marked[i] != s.marked[j])
  {
    if docs != [] {
      var init := docs[..|docs| - 1];
      var doc := docs[|docs| - 1];
      VisitsMarkAll(processed, init, produce);
      var s := Visits(processed, init, produce);
      var t := Visits(processed, docs, produce);
      assert t == Visit(s, doc, produce);
      assert forall d :: d in docs ==> d in init || d == doc;
      if doc.id !in s.processed {
        assert t.marked == s.marked + [doc.id];
        assert (set id | id in t.marked) == (set id | id in s.marked) + {doc.id};
      }
    }
  }

  /** A document not yet processed adds at most one record, and only when its content is not blank. */
  lemma VisitAddsOne(s: State, doc: Doc, llm: string -> string)
    requires doc.id !in s.processed
    ensures var t := Visit(s, doc, Producer(llm));
      && t.entries[..|s.entries|] == s.entries
      && |t.entries| <= |s.entries| + 1
      && (IsBlank(doc.content) ==> t.entries == s.entries)
  {
    var t := Visit(s, doc, Producer(llm));
    if !IsBlank(doc.content) {
      var es := WholeCodeEntry(doc.content, llm);
      assert t.entries == s.entries + es;
    }
  }

  /** The document is passed over by `continue`: its id is already processed or its content is blank. */
  predicate Skipped(processed: set<string>, doc: Doc) {
    doc.id in processed || IsBlank(doc.content)
  }

  /**
   * The batches written inside the `__main__` loop and the buffer left after
   * it: a skipped document leaves both alone; any other one adds its record,
   * if any, to the buffer, and then the buffer check runs.
   */
  function Batching(loaded: set<string>, docs: seq<Doc>, produce: string -> seq<Json>): (r: (seq<seq<Json>>, seq<Json>))
    ensures FullBatches(r.0)
  {
    if docs == [] then ([], [])
    else
      var init := docs[..|docs| - 1];
      var doc := docs[|docs| - 1];
      var (batches, buffer) := Batching(loaded, init, produce);
      if Skipped(Visits(loaded, init, produce).processed, doc) then (batches, buffer)
      else Flushed(batches, buffer + produce(doc.content))
  }

  /** One more document, in the shape the loop takes it. */
  lemma VisitsStep(loaded: set<string>, docs: seq<Doc>, k: nat, produce: string -> seq<Json>)
    requires k < |docs|
    ensures Visits(loaded, docs[..k + 1], produce) == Visit(Visits(loaded, docs[..k], produce), docs[k], produce)
  {
    assert docs[..k + 1][..k] == docs[..k];
  }

  /** The batching after one more document, in the shape the loop takes it. */
  lemma BatchingStep(loaded: set<string>, docs: seq<Doc>, k: nat, produce: string -> seq<Json>)
    requires k < |docs|
    ensures Batching(loaded, docs[..k + 1], produce)
      == if Skipped(Visits(loaded, docs[..k], produce).processed, docs[k]) then Batching(loaded, docs[..k], produce)
         else Flushed(Batching(loaded, docs[..k], produce).0, Batching(loaded, docs[..k], produce).1 + produce(docs[k].content))
  {
    assert docs[..k + 1][..k] == docs[..k];
  }

  /** What the loop writes and keeps in its buffer is exactly what the documents produced, in order. */
  lemma {:induction false} BatchingCoversEntries(loaded: set<string>, docs: seq<Doc>, produce: string -> seq<Json>)
    ensures var (batches, buffer) := Batching(loaded, docs, produce);
      Flatten(batches) + buffer == Visits(loaded, docs, produce).entries
  {
    if docs != [] {
      var init := docs[..|docs| - 1];
      var doc := docs[|docs| - 1];
      BatchingCoversEntries(loaded, init, produce);
      var (batches, buffer) := Batching(loaded, init, produce);
      var s := Visits(loaded, init, produce);
      if !Skipped(s.processed, doc) {
        var es := produce(doc.content);
        var (batches', buffer') := Flushed(batches, buffer + es);
        assert Flatten(batches') + buffer' == (Flatten(batches) + buffer) + es;
      }
    }
  }

  /**
   * The body of the `__main__` loop for one document, before the flush, with
   * `process_whole_code_to_jsonl_entry` as `produce`: the bookkeeping moves
   * as `Visit` says, from an output `done`, and `es` are the records to
   * append to the buffer, none for a skipped document.
   */
  method VisitDocument(processed: set<string>, marked: seq<string>, ghost done: seq<Json>,
                       doc: Doc, produce: string -> seq<Json>)
    returns (processed': set<string>, marked': seq<string>, es: seq<Json>)
    ensures Visit(State(processed, marked, done), doc, produce) == State(processed', marked', done + es)
    ensures es == if Skipped(processed, doc) then [] else produce(doc.content)
  {
    processed', marked', es := processed, marked, [];
    if doc.id in processed {
      assert done + es == done;
      return;
    }
    if doc.content == [] || Strip(doc.content) == [] {
      processed', marked' := processed + {doc.id}, marked + [doc.id];
      assert done + es == done;
      return;
    }
    es := produce(doc.content);
    // marked processed whether or not the model's reply gave a record
    processed', marked' := processed + {doc.id}, marked + [doc.id];
  }

  /**
   * The `__main__` loop over the documents the cursor yields, with the
   * output buffer checked after every document that is not skipped, one
   * batch of `BATCH_SIZE` written at a time, and the remainder written at the
   * end. Every record produced is written once, in order;
   * every write but the last is a full batch.
   */
  method GenerateWholeCodeInstructions(loaded: set<string>, docs: seq<Doc>, llm: string -> string)
    returns (processed: set<string>, marked: seq<string>, writes: seq<seq<Json>>)
    ensures var s := Visits(loaded, docs, Producer(llm));
      processed == s.processed && marked == s.marked && Flatten(writes) == s.entries
    ensures forall k :: 0 <= k < |writes| - 1 ==> |writes[k]| == BATCH_SIZE
    ensures forall k :: 0 <= k < |writes| ==> writes[k] != []
    ensures var (batches, buffer) := Batching(loaded, docs, Producer(llm)); writes == batches + Remainder(buffer)
  {
    processed, marked := loaded, [];
    var buffer: seq<Json> := [];
    var batches: seq<seq<Json>> := [];
    for k := 0 to |docs|
      invariant var s := Visits(loaded, docs[..k], Producer(llm)); processed == s.processed && marked == s.marked
      invariant Batching(loaded, docs[..k], Producer(llm)) == (batches, buffer)
    {
      VisitsStep(loaded, docs, k, Producer(llm));
      BatchingStep(loaded, docs, k, Producer(llm));
      ghost var done := Visits(loaded, docs[..k], Producer(llm)).entries;
      var skipped := Skipped(processed, docs[k]);
      var es;
      processed, marked, es := VisitDocument(processed, marked, done, docs[k], Producer(llm));
      if skipped {
        assert buffer + es == buffer;
      }
      buffer := buffer + es;
      if !skipped {
        batches, buffer := FlushFull(batches, buffer);
      }
    }
    assert docs[..|docs|] == docs;
    BatchingCoversEntries(loaded, docs, Producer(llm));
    WritesShape(batches, buffer);
    writes := batches + Remainder(buffer);
  }
}
