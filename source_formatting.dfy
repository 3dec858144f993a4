/**
 * The answer formatting of the documentation chat app (src/chapter_6/app.py):
 * `format_sources` sorts the distinct sources and numbers them one per line, and
 * `format_response` appends that list to the model's answer.
 *
 * `list(sources)` lists a Python set in an order the model does not know, so
 * `FormatSources` takes any listing of the set, a sequence without duplicates; the lemma
 * `FormatSourcesOrderIndependent` shows the result does not depend on that order.
 */
module SourceFormatting {
  import opened Wrappers
  import opened PythonStrings

  // ---------------------------------------------------------------------------------------
  // `sources_list.sort()`

  /** Ascending in Python's string order, equal neighbours allowed. */
  predicate Sorted(s: seq<string>)
  {
    forall i, j :: 0 <= i < j < |s| ==> LessOrEqual(s[i], s[j])
  }

  /** Ascending with no element twice. */
  predicate StrictlyAscending(s: seq<string>)
  {
    forall i, j :: 0 <= i < j < |s| ==> Less(s[i], s[j])
  }

  /** No element occurs twice: the listing of a set. */
  predicate NoDuplicates(s: seq<string>)
  {
    forall i, j :: 0 <= i < j < |s| ==> s[i] != s[j]
  }

  /** `x` put into `s` before the first element not less than it. */
  function Insert(x: string, s: seq<string>): (r: seq<string>)
    ensures multiset(r) == multiset(s) + multiset{x}
  {
    if s == [] then [x]
    else if Less(s[0], x) then
      assert s == [s[0]] + s[1..];
      [s[0]] + Insert(x, s[1..])
    else [x] + s
  }

  /** Every element of `Insert(x, s)` is `x` or an element of `s`. */
  lemma InsertMember(x: string, s: seq<string>, y: string)
    requires y in Insert(x, s)
    ensures y == x || y in s
  {
    assert y in multiset(Insert(x, s));
  }

  /** A head at most every element, before a sorted tail, is sorted. */
  lemma PrependSorted(h: string, rest: seq<string>)
    requires Sorted(rest) && forall i :: 0 <= i < |rest| ==> LessOrEqual(h, rest[i])
    ensures Sorted([h] + rest)
  {
    var r := [h] + rest;
    forall i, j | 0 <= i < j < |r| ensures LessOrEqual(r[i], r[j]) {
      if i > 0 {
        assert r[i] == rest[i - 1] && r[j] == rest[j - 1];
      } else {
        assert r[j] == rest[j - 1];
      }
    }
  }

  /** Inserting into a sorted sequence keeps it sorted. */
  lemma {:induction false} InsertSorted(x: string, s: seq<string>)
    requires Sorted(s)
    ensures Sorted(Insert(x, s))
  {
    if s == [] {
    } else if Less(s[0], x) {
      assert Sorted(s[1..]);
      InsertSorted(x, s[1..]);
      var rest := Insert(x, s[1..]);
      forall i | 0 <= i < |rest| ensures LessOrEqual(s[0], rest[i]) {
        InsertMember(x, s[1..], rest[i]);
        if rest[i] != x {
          var k :| 0 <= k < |s[1..]| && s[1..][k] == rest[i];
          assert s[k + 1] == rest[i];
        }
      }
      PrependSorted(s[0], rest);
    } else {
      LessTotal(x, s[0]);
      forall i | 0 <= i < |s| ensures LessOrEqual(x, s[i]) {
        LessOrEqualTransitive(x, s[0], s[i]);
      }
      PrependSorted(x, s);
    }
  }

  /** `list.sort()` on strings: the same elements, in ascending order. */
  function Sort(s: seq<string>): (r: seq<string>)
    ensures Sorted(r)
    ensures multiset(r) == multiset(s)
  {
    if s == [] then []
    else
      assert s == [s[0]] + s[1..];
      InsertSorted(s[0], Sort(s[1..]));
      Insert(s[0], Sort(s[1..]))
  }

  /** A head below every element, before a strictly ascending tail, is strictly ascending. */
  lemma PrependStrict(h: string, rest: seq<string>)
    requires StrictlyAscending(rest) && forall i :: 0 <= i < |rest| ==> Less(h, rest[i])
    ensures StrictlyAscending([h] + rest)
  {
    var r := [h] + rest;
    forall i, j | 0 <= i < j < |r| ensures Less(r[i], r[j]) {
      if i > 0 {
        assert r[i] == rest[i - 1] && r[j] == rest[j - 1];
      } else {
        assert r[j] == rest[j - 1];
      }
    }
  }

  /** Inserting a new element into a strictly ascending sequence keeps it strictly ascending. */
  lemma {:induction false} InsertStrict(x: string, s: seq<string>)
    requires StrictlyAscending(s) && x !in s
    ensures StrictlyAscending(Insert(x, s))
  {
    if s == [] {
    } else if Less(s[0], x) {
      assert StrictlyAscending(s[1..]);
      InsertStrict(x, s[1..]);
      var rest := Insert(x, s[1..]);
      forall i | 0 <= i < |rest| ensures Less(s[0], rest[i]) {
        InsertMember(x, s[1..], rest[i]);
        if rest[i] != x {
          var k :| 0 <= k < |s[1..]| && s[1..][k] == rest[i];
          assert s[k + 1] == rest[i];
        }
      }
      PrependStrict(s[0], rest);
    } else {
      assert x != s[0];
      LessTotal(x, s[0]);
      forall i | 0 <= i < |s| ensures Less(x, s[i]) {
        if i > 0 {
          LessTransitive(x, s[0], s[i]);
        }
      }
      PrependStrict(x, s);
    }
  }

  /** Sorting a listing without duplicates gives a strictly ascending sequence. */
  lemma {:induction false} SortStrict(s: seq<string>)
    requires NoDuplicates(s)
    ensures StrictlyAscending(Sort(s))
  {
    if s != [] {
      assert NoDuplicates(s[1..]) by {
        forall i, j | 0 <= i < j < |s[1..]| ensures s[1..][i] != s[1..][j] {
          assert s[1..][i] == s[i + 1] && s[1..][j] == s[j + 1];
        }
      }
      SortStrict(s[1..]);
      assert s[0] !in Sort(s[1..]) by {
        assert s[0] !in s[1..];
        assert s[0] !in multiset(s[1..]);
      }
      InsertStrict(s[0], Sort(s[1..]));
    }
  }

  /** Two strictly ascending sequences with the same elements are equal. */
  lemma {:induction false} StrictlyAscendingUnique(a: seq<string>, b: seq<string>)
    requires StrictlyAscending(a) && StrictlyAscending(b)
    requires forall x :: x in a <==> x in b
    ensures a == b
  {
    assert a != [] ==> a[0] in b;
    assert b != [] ==> b[0] in a;
    if a != [] {
      if a[0] != b[0] {
        var k :| 0 <= k < |a| && a[k] == b[0];
        var m :| 0 <= m < |b| && b[m] == a[0];
        LessAsymmetric(a[0], b[0]);
        assert false;
      }
      forall x ensures x in a[1..] <==> x in b[1..] {
        if x in a[1..] {
          var k :| 0 <= k < |a[1..]| && a[1..][k] == x;
          assert Less(a[0], a[k + 1]);
          LessIrreflexive(x);
          assert x in b && x != b[0];
          var m :| 0 <= m < |b| && b[m] == x;
          assert b[1..][m - 1] == x;
        }
        if x in b[1..] {
          var k :| 0 <= k < |b[1..]| && b[1..][k] == x;
          assert Less(b[0], b[k + 1]);
          LessIrreflexive(x);
          assert x in a && x != a[0];
          var m :| 0 <= m < |a| && a[m] == x;
          assert a[1..][m - 1] == x;
        }
      }
      assert StrictlyAscending(a[1..]) && StrictlyAscending(b[1..]);
      StrictlyAscendingUnique(a[1..], b[1..]);
      assert a == [a[0]] + a[1..] && b == [b[0]] + b[1..];
    }
  }

  // ---------------------------------------------------------------------------------------
  // `format_sources`

  /** `f"{i + 1}. {source}"`: the line for the source at zero-based position `i`. */
  function NumberedLine(i: nat, source: string): string
  {
    DecimalString(i + 1) + ". " + source
  }

  /** The lines `enumerate` numbers, from 1. */
  function NumberedLines(sources: seq<string>): seq<string>
  {
    seq(|sources|, i requires 0 <= i < |sources| => NumberedLine(i, sources[i]))
  }

  /** `format_sources(sources)`, given `list(sources)`. */
  function FormatSources(listing: seq<string>): string
  {
    Join(NumberedLines(Sort(listing)), "\n")
  }

  /** The order in which the set is listed does not matter. */
  lemma FormatSourcesOrderIndependent(listing1: seq<string>, listing2: seq<string>)
    requires NoDuplicates(listing1) && NoDuplicates(listing2)
    requires forall x :: x in listing1 <==> x in listing2
    ensures FormatSources(listing1) == FormatSources(listing2)
  {
    SortStrict(listing1);
    SortStrict(listing2);
    var s1, s2 := Sort(listing1), Sort(listing2);
    assert multiset(s1) == multiset(listing1) && multiset(s2) == multiset(listing2);
    forall x ensures x in s1 <==> x in s2 {
      assert x in s1 <==> x in multiset(s1);
      assert x in s2 <==> x in multiset(s2);
      assert x in listing1 <==> x in multiset(listing1);
      assert x in listing2 <==> x in multiset(listing2);
    }
    StrictlyAscendingUnique(s1, s2);
  }

  lemma JoinStartsWithFirst(parts: seq<string>, sep: string)
    requires |parts| >= 1
    ensures |Join(parts, sep)| >= |parts[0]|
  {
  }

  /** The empty set gives the empty string, and only the empty set does. */
  lemma FormatSourcesEmpty(listing: seq<string>)
    ensures FormatSources(listing) == [] <==> listing == []
  {
    if listing != [] {
      var lines := NumberedLines(Sort(listing));
      assert |Sort(listing)| == |listing| by {
        assert |multiset(Sort(listing))| == |multiset(listing)|;
      }
      JoinStartsWithFirst(lines, "\n");
      assert |lines[0]| > 0;
    }
  }

  /**
   * When no source contains a newline, the output splits into exactly one line per
   * source: line k (from 1) is `"{k}. {source}"` for the k-th source in ascending order,
   * every source once, and nothing trails the last line.
   */
  lemma FormatSourcesLines(listing: seq<string>)
    requires listing != [] && NoDuplicates(listing)
    requires forall i :: 0 <= i < |listing| ==> '\n' !in listing[i]
    ensures var sorted := Sort(listing);
            var lines := Split(FormatSources(listing), "\n");
            && StrictlyAscending(sorted)
            && (forall x :: x in sorted <==> x in listing)
            && |lines| == |listing| == |sorted|
            && forall k :: 0 <= k < |lines| ==> lines[k] == DecimalString(k + 1) + ". " + sorted[k]
  {
    var sorted := Sort(listing);
    SortStrict(listing);
    assert |sorted| == |listing| by {
      assert |multiset(sorted)| == |multiset(listing)|;
    }
    forall x ensures x in sorted <==> x in listing {
      assert x in sorted <==> x in multiset(sorted);
    }
    var lines := NumberedLines(sorted);
    forall k | 0 <= k < |lines| ensures '\n' !in lines[k] {
      assert sorted[k] in listing;
    }
    SplitOfJoin(lines, '\n');
  }

  // ---------------------------------------------------------------------------------------
  // `format_response`

  /** A retrieved document: its text and its metadata dictionary. */
  datatype SourceDocument = SourceDocument(pageContent: string, metadata: map<string, string>)

  /** The dictionary `answer_question` returns. */
  datatype Answer = Answer(query: string, result: string, sourceDocuments: seq<SourceDocument>)

  /** Python's `KeyError`, with the missing key. */
  datatype KeyError = KeyError(key: string)

  /** `s` is the source of one of the documents. */
  ghost predicate IsSourceOf(docs: seq<SourceDocument>, s: string)
  {
    exists i :: 0 <= i < |docs| && "source" in docs[i].metadata && docs[i].metadata["source"] == s
  }

  /**
   * The set `{doc.metadata["source"] for doc in docs}`, listed in order of first
   * occurrence; a document without a source raises `KeyError("source")`.
   */
  function SourceListing(docs: seq<SourceDocument>): (r: Result<seq<string>, KeyError>)
    ensures r.Success? <==> forall i :: 0 <= i < |docs| ==> "source" in docs[i].metadata
    ensures r.Failure? ==> r.error == KeyError("source")
    ensures r.Success? ==> NoDuplicates(r.value)
    ensures r.Success? ==> forall s :: s in r.value <==> IsSourceOf(docs, s)
  {
    if docs == [] then Success([])
    else
      var init := docs[..|docs| - 1];
      var last := docs[|docs| - 1];
      match SourceListing(init)
      case Failure(e) => Failure(e)
      case Success(listing) =>
        if "source" !in last.metadata then Failure(KeyError("source"))
        else
          var s := last.metadata["source"];
          assert forall t :: IsSourceOf(docs, t) <==> IsSourceOf(init, t) || t == s by {
            forall t ensures IsSourceOf(docs, t) <==> IsSourceOf(init, t) || t == s {
              if IsSourceOf(init, t) {
                var i :| 0 <= i < |init| && "source" in init[i].metadata && init[i].metadata["source"] == t;
                assert docs[i] == init[i];
              }
              if IsSourceOf(docs, t) {
                var i :| 0 <= i < |docs| && "source" in docs[i].metadata && docs[i].metadata["source"] == t;
                if i < |init| {
                  assert docs[i] == init[i];
                }
              }
              if t == s {
                assert docs[|docs| - 1] == last;
              }
            }
          }
          assert forall i :: 0 <= i < |docs| - 1 ==> docs[i] == init[i];
          if s in listing then Success(listing) else Success(listing + [s])
  }

  /** `format_response(answer)`. */
  function FormatResponse(answer: Answer): (r: Result<string, KeyError>)
    ensures r.Success? <==> forall i :: 0 <= i < |answer.sourceDocuments| ==> "source" in answer.sourceDocuments[i].metadata
    ensures r.Failure? ==> r.error == KeyError("source")
  {
    match SourceListing(answer.sourceDocuments)
    case Failure(e) => Failure(e)
    case Success(listing) => Success(answer.result + "\n\nSources:\n" + FormatSources(listing))
  }

  /**
   * The response is the answer, a blank line, "Sources:", and the formatted set of the
   * documents' sources, however that set would be listed.
   */
  lemma FormatResponseShape(answer: Answer, listing: seq<string>)
    requires forall i :: 0 <= i < |answer.sourceDocuments| ==> "source" in answer.sourceDocuments[i].metadata
    requires NoDuplicates(listing) && forall s :: s in listing <==> IsSourceOf(answer.sourceDocuments, s)
    ensures FormatResponse(answer) == Success(answer.result + "\n\nSources:\n" + FormatSources(listing))
  {
    var own := SourceListing(answer.sourceDocuments).value;
    FormatSourcesOrderIndependent(own, listing);
  }

  /** `s` is at exactly one position of `lines`. */
  predicate AtExactlyOnePosition(lines: seq<string>, s: string)
  {
    exists k :: 0 <= k < |lines| && lines[k] == s && forall j :: 0 <= j < |lines| && lines[j] == s ==> j == k
  }

  /** An element of a strictly ascending sequence is at exactly one position. */
  lemma StrictlyAscendingOnce(sorted: seq<string>, s: string)
    requires StrictlyAscending(sorted) && s in sorted
    ensures AtExactlyOnePosition(sorted, s)
  {
    var k :| 0 <= k < |sorted| && sorted[k] == s;
    forall j | 0 <= j < |sorted| && sorted[j] == s ensures j == k {
      LessIrreflexive(s);
    }
  }

  /**
   * When no source contains a newline, the lines after "Sources:" number the distinct
   * sources in ascending order, and each source of any document is on exactly one line.
   */
  lemma FormatResponseListsEachSourceOnce(answer: Answer)
    requires forall i :: 0 <= i < |answer.sourceDocuments| ==> "source" in answer.sourceDocuments[i].metadata
    requires forall i :: 0 <= i < |answer.sourceDocuments| ==> '\n' !in answer.sourceDocuments[i].metadata["source"]
    requires |answer.sourceDocuments| > 0
    ensures var listing := SourceListing(answer.sourceDocuments).value;
            var sorted := Sort(listing);
            var lines := Split(FormatSources(listing), "\n");
            && FormatResponse(answer) == Success(answer.result + "\n\nSources:\n" + FormatSources(listing))
            && |lines| == |sorted|
            && (forall k :: 0 <= k < |lines| ==> lines[k] == DecimalString(k + 1) + ". " + sorted[k])
            && (forall s :: IsSourceOf(answer.sourceDocuments, s) ==> AtExactlyOnePosition(sorted, s))
            && (forall k :: 0 <= k < |sorted| ==> IsSourceOf(answer.sourceDocuments, sorted[k]))
  {
    var docs := answer.sourceDocuments;
    var listing := SourceListing(docs).value;
    assert listing != [] by {
      assert IsSourceOf(docs, docs[0].metadata["source"]);
    }
    forall i | 0 <= i < |listing| ensures '\n' !in listing[i] {
      assert IsSourceOf(docs, listing[i]);
    }
    FormatSourcesLines(listing);
    var sorted := Sort(listing);
    forall s | IsSourceOf(docs, s) ensures AtExactlyOnePosition(sorted, s) {
      StrictlyAscendingOnce(sorted, s);
    }
  }

  /** The documents of the example below: three chunks citing two pages. */
  function ExampleDocuments(): seq<SourceDocument>
  {
    [SourceDocument("x", map["source" := "b"]), SourceDocument("y", map["source" := "a"]),
     SourceDocument("z", map["source" := "b"])]
  }

  /** The page cited twice is listed once, at its first citation. */
  lemma ExampleListing()
    ensures SourceListing(ExampleDocuments()) == Success(["b", "a"])
  {
    var docs := ExampleDocuments();
    var noDocs: seq<SourceDocument> := [];
    var noSources: seq<string> := [];
    assert [docs[0]][..0] == noDocs;
    assert SourceListing(noDocs) == Success(noSources);
    assert noSources + ["b"] == ["b"];
    assert SourceListing([docs[0]]) == Success(["b"]);
    assert [docs[0], docs[1]][..1] == [docs[0]];
    assert ["b"] + ["a"] == ["b", "a"];
    assert SourceListing([docs[0], docs[1]]) == Success(["b", "a"]);
    assert docs[..2] == [docs[0], docs[1]];
  }

  /** Sorting puts "a" before "b". */
  lemma ExampleSorted()
    ensures Sort(["b", "a"]) == ["a", "b"]
  {
    var single := ["a"];
    assert ["b", "a"][1..] == single;
    assert Sort(single) == ["a"] by {
      var none: seq<string> := [];
      assert single[1..] == none;
    }
    assert Less("a", "b");
  }

  /** The two pages are listed in ascending order, numbered from 1. */
  lemma ExampleSourcesFormatted()
    ensures FormatSources(["b", "a"]) == "1. a\n2. b"
  {
    ExampleSorted();
    assert DigitChar(1) == '1' && DigitChar(2) == '2';
    assert NumberedLine(0, "a") == "1. a" && NumberedLine(1, "b") == "2. b";
    var lines := NumberedLines(["a", "b"]);
    assert |lines| == 2 && lines[0] == "1. a" && lines[1] == "2. b";
    assert lines == ["1. a", "2. b"];
    assert Join(["1. a", "2. b"], "\n") == "1. a\n2. b";
  }
}
