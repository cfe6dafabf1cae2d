/** The retriever's post-processing of the rows returned by the vector
    store's `match_documents` call: the text of each row, the dropping of
    empty texts, and the joining of the rest into one context block, with
    a fixed sentinel whenever there is nothing to join. Embedding the
    question and calling the store are not modelled: the rows are an input. */
module Retrieval {
  import opened Wrappers
  import opened PyText

  const NoContext := "No relevant textbook context found."
  const Separator := "\n\n"

  /** One row of the store's answer. Either text field may be absent. */
  datatype Row = Row(content: Option<string>, pageContent: Option<string>)

  /** `row.get("content") or row.get("page_content") or ""` */
  function Snippet(row: Row): (s: string)
    ensures s != "" <==> Truthy(row.content) || Truthy(row.pageContent)
    ensures Truthy(row.content) ==> s == row.content.value
    ensures !Truthy(row.content) && Truthy(row.pageContent) ==> s == row.pageContent.value
  {
    Or(Or(row.content, row.pageContent), Some("")).value
  }

  /** The first list comprehension: one snippet per row, in row order. */
  function Snippets(rows: seq<Row>): (snippets: seq<string>)
    ensures |snippets| == |rows|
    ensures forall i :: 0 <= i < |rows| ==> snippets[i] == Snippet(rows[i])
  {
    seq(|rows|, i requires 0 <= i < |rows| => Snippet(rows[i]))
  }

  /** One snippet per row, so snippets of two batches of rows are the two lists of snippets, in order. */
  lemma SnippetsAppend(a: seq<Row>, b: seq<Row>)
    ensures Snippets(a + b) == Snippets(a) + Snippets(b)
  {
  }

  /** The second comprehension: the snippets that are not empty, in order. */
  function NonEmpty(snippets: seq<string>): (kept: seq<string>)
    ensures |kept| <= |snippets|
    ensures forall s :: s in kept ==> s != "" && s in snippets
    ensures forall s :: s in snippets && s != "" ==> s in kept
    ensures kept == [] <==> forall i :: 0 <= i < |snippets| ==> snippets[i] == ""
  {
    if snippets == [] then []
    else
      (if snippets[0] != "" then [snippets[0]] else []) + NonEmpty(snippets[1..])
  }

  /** `"\n\n".join(parts)` */
  function Join(parts: seq<string>): (r: string)
    ensures parts == [] ==> r == ""
    ensures parts != [] ==> |r| == TotalLength(parts) + |Separator| * (|parts| - 1)
    ensures |parts| > 0 ==> r[..|parts[0]|] == parts[0]
  {
    if parts == [] then ""
    else if |parts| == 1 then parts[0]
    else parts[0] + Separator + Join(parts[1..])
  }

  /** The number of characters in all of `parts`. */
  function TotalLength(parts: seq<string>): nat
  {
    if parts == [] then 0 else |parts[0]| + TotalLength(parts[1..])
  }

  /** `manual_supabase_retriever` after the store call: the context block for `rows`. */
  function Retrieve(rows: seq<Row>): (context: string)
    ensures context != ""
  {
    if rows == [] then NoContext
    else
      var snippets := NonEmpty(Snippets(rows));
      if snippets == [] then NoContext
      else JoinNonEmpty(snippets); Join(snippets)
  }

  /** The snippets that survive for `rows`. */
  function Kept(rows: seq<Row>): seq<string>
  {
    NonEmpty(Snippets(rows))
  }

  /** Joining a non-empty list of non-empty parts gives a non-empty string. */
  lemma {:induction false} JoinNonEmpty(parts: seq<string>)
    requires parts != []
    requires forall s :: s in parts ==> s != ""
    ensures Join(parts) != ""
  {
    assert parts[0] in parts;
    if |parts| > 1 {
      assert |Join(parts)| >= |parts[0]|;
    }
  }

  /** Filtering distributes over concatenation, so snippets keep their relative order. */
  lemma {:induction false} NonEmptyAppend(a: seq<string>, b: seq<string>)
    ensures NonEmpty(a + b) == NonEmpty(a) + NonEmpty(b)
  {
    if a == [] {
      assert a + b == b;
    } else {
      assert (a + b)[1..] == a[1..] + b;
      NonEmptyAppend(a[1..], b);
    }
  }

  /** Joining `a + b` puts the separator between the join of `a` and the join of `b`. */
  lemma {:induction false} JoinAppend(a: seq<string>, b: seq<string>)
    requires a != [] && b != []
    ensures Join(a + b) == Join(a) + Separator + Join(b)
  {
    if |a| == 1 {
      assert (a + b)[1..] == b;
    } else {
      assert (a + b)[1..] == a[1..] + b;
      JoinAppend(a[1..], b);
    }
  }

  /** `part` appears in `text` starting at offset `k`. */
  predicate OccursAt(part: string, text: string, k: nat)
  {
    k + |part| <= |text| && text[k..k + |part|] == part
  }

  /** Every part appears in the joined text; `k` is where. */
  lemma {:induction false} JoinContains(parts: seq<string>, i: nat) returns (k: nat)
    requires i < |parts|
    ensures OccursAt(parts[i], Join(parts), k)
  {
    if |parts| == 1 {
      k := 0;
    } else if i == 0 {
      k := 0;
      assert Join(parts) == parts[0] + (Separator + Join(parts[1..]));
    } else {
      var k' := JoinContains(parts[1..], i - 1);
      var prefix := parts[0] + Separator;
      k := |prefix| + k';
      assert Join(parts) == prefix + Join(parts[1..]);
      assert Join(parts)[k..k + |parts[i]|] == Join(parts[1..])[k'..k' + |parts[i]|];
    }
  }

  /** Empty store answer: the sentinel. */
  lemma RetrieveNoRows()
    ensures Retrieve([]) == NoContext
  {
  }

  /** Rows that all lack text also give the sentinel, never an empty string. */
  lemma RetrieveAllEmpty(rows: seq<Row>)
    requires forall i :: 0 <= i < |rows| ==> !Truthy(rows[i].content) && !Truthy(rows[i].pageContent)
    ensures Retrieve(rows) == NoContext
  {
  }

  /** Otherwise the context is exactly the surviving snippets, joined. */
  lemma RetrieveJoins(rows: seq<Row>)
    requires exists i :: 0 <= i < |rows| && (Truthy(rows[i].content) || Truthy(rows[i].pageContent))
    ensures Kept(rows) != [] && Retrieve(rows) == Join(Kept(rows))
  {
  }

  /** The text of every row that has one appears in the context: its
      `content` when that is non-empty, else its `page_content`. */
  lemma RetrieveContainsRow(rows: seq<Row>, i: nat) returns (k: nat)
    requires i < |rows| && (Truthy(rows[i].content) || Truthy(rows[i].pageContent))
    ensures Truthy(rows[i].content) ==> OccursAt(rows[i].content.value, Retrieve(rows), k)
    ensures !Truthy(rows[i].content) ==> OccursAt(rows[i].pageContent.value, Retrieve(rows), k)
  {
    RetrieveJoins(rows);
    var s := Snippet(rows[i]);
    assert Snippets(rows)[i] == s;
    assert s in Kept(rows);
    var j :| 0 <= j < |Kept(rows)| && Kept(rows)[j] == s;
    k := JoinContains(Kept(rows), j);
  }

  /** Row order is kept: the context for two batches of rows that both
      carry text is the first batch's context, a blank line, then the second's. */
  lemma RetrieveAppend(a: seq<Row>, b: seq<Row>)
    requires Kept(a) != [] && Kept(b) != []
    ensures Retrieve(a + b) == Retrieve(a) + Separator + Retrieve(b)
  {
    SnippetsAppend(a, b);
    NonEmptyAppend(Snippets(a), Snippets(b));
    JoinAppend(Kept(a), Kept(b));
  }
}
