# langchain-eden-marco: the sequential logic, modelled in Dafny

The repository is a set of LangChain course chapters. Most of it wires prompt templates,
model clients, vector stores and user interfaces together. This project models the pieces
that are plain sequential logic and proves what each promises:

- **The hand-rolled ReAct agent** (`src/chapter_4/main.py`, module `ReactLoop`). `find_tool`
  is modelled, and so is the `while True` loop. Each iteration asks a reasoning step for an
  action or a finish, then runs the named tool and appends `(action, observation)` to
  `intermediate_steps`. It counts the iterations and stops at the limit of 20, but only for a
  step that is neither an action nor a finish. The reasoning step is a function parameter.
  The loop is a method whose state is updated step by step, proved equal to a recursive
  reference `Agent`.
- **The text-length tool** (`src/chapter_4/tools.py`, module `TextLengthTool`).
- **`minimal_profile`** (`src/linkedin/api.py`, with an identical copy in
  `src/chapter_2/linkedin.py`; module `LinkedinProfile`). It filters an ordered dictionary,
  dropping empty values and three bulky keys. The same definition models both copies.
- **Answer formatting of the documentation chat** (`src/chapter_6/app.py`, module
  `SourceFormatting`). `format_sources` sorts the distinct sources, numbers them and joins them
  by newlines. `format_response` collects the documents' sources into a set and appends the
  list to the answer.
- **Batched upload to Pinecone** (`src/chapter_5/pinecone_ingestion.py`, module
  `PineconeIngestion`). `save_embeddings` cuts the chunks into slices of 100 and makes one store
  call per slice. Each store call is recorded rather than performed.
- **Source URL rewrite before FAISS ingestion** (`src/chapter_6/faiss_ingestion.py`, lines 61-64,
  module `FaissIngestion`). Each chunk object's `metadata["source"]` is rewritten in place with
  `str.replace`.
- **The reason/act graph** (`src/chapter_8/main.py`, module `ReasonActGraph`). It covers
  `should_continue`, the entry point, the three edges, and execution node by node over a
  scripted sequence of model answers.

Two helper modules support these:

- `Wrappers` defines `Option` and `Result`. They model Python's exceptions
  (`KeyError`, `IndexError`, `StopIteration`) as failure values.
- `PythonStrings` defines the Python string operations the code relies on. These are
  `str` ordering (`<`), `sep.join`, `s.split` (used only to state properties),
  `s.replace`, and `str(n)` for non-negative integers.

Python's `str` is modelled as `string` (`seq<char>`). Integers are unbounded, as in Python.

## Model

| member | source | states |
|---|---|---|
| ReactLoop.FindTool | src/chapter_4/main.py:45-47 | None exactly when no tool has the name; otherwise the tool at the first index, in list order, whose name matches |
| ReactLoop.RunAgent | src/chapter_4/main.py:67-104 | the in-place loop gives exactly the run of the reference `Agent`: one prompt per iteration, count equal to the number of iterations, every prompt the fixed question, every scratchpad passed a prefix of the final one |
| ReactLoop.AgentTrace | src/chapter_4/main.py:82-104 | for every run: the counter counts the iterations; each prompt holds the fixed question and the scratchpad as it was at that call; consecutive prompts differ by exactly the appended entry of that call (action with a registered tool: its (action, observation) pair appended at the end; neither action nor finish below the limit: nothing appended); and the final state says which step stopped the loop and why |
| ReactLoop.RunFromTrace | src/chapter_4/main.py:82-104 | the same characterisation for the loop started from any consistent state (the inductive form of `AgentTrace`) |
| ReactLoop.ToolNotFoundLeavesScratchpad | src/chapter_4/main.py:93-98 | when the run ends because an action names an unknown tool, no tool has that name, and the final scratchpad is the one given to that last call, so nothing is appended for it |
| ReactLoop.FinishFirst | src/chapter_4/main.py:99-101 | a finish on the first call ends the run after one iteration with an empty scratchpad and the finish's return values |
| ReactLoop.ActionsAreNeverCapped | src/chapter_4/main.py:93-104 | a model that always names a registered tool is never stopped by the limit: every iteration appends one entry and the counter grows by one per call |
| ReactLoop.ActionsRunPastLimit | src/chapter_4/main.py:80-104 | with such a model, 21 calls are made and the counter passes the limit of 20 |
| ReactLoop.OtherStepsStopAtLimit | src/chapter_4/main.py:102-104 | a model that only answers with steps that are neither action nor finish is stopped when the counter reaches 20, with nothing appended |
| ReactLoop.MainRunExample | src/chapter_4/main.py:85-98 | with `main`'s single tool, an action on "Hello, world!" then a finish records one entry with observation 13 and ends after two iterations |
| TextLengthTool.TextLengthCountsCharacters | src/chapter_4/tools.py:5-7 | the tool's result equals the number of characters, counted one at a time |
| TextLengthTool.TextLengthZero | src/chapter_4/tools.py:7 | the length is 0 exactly for the empty text (and, being a `nat`, never negative) |
| TextLengthTool.TextLengthWithNewlines | src/chapter_4/tools.py:11 | newlines count: "\nHello, world!\n" has length 15 |
| TextLengthTool.TextLengthOfConcatenation | src/chapter_4/tools.py:7 | the length of a concatenation is the sum of the lengths |
| LinkedinProfile.MinimalProfile | src/linkedin/api.py:9-16 | every result entry is an input entry with its value unchanged; no result value is `[]`, `""` or `None`; no excluded key appears; every input entry passing the filter is kept |
| LinkedinProfile.MinimalProfileIdempotent | src/chapter_2/linkedin.py:8-15 | filtering a filtered profile changes nothing |
| LinkedinProfile.MinimalProfileKeepsOrder | src/linkedin/api.py:11-13 | the kept entries are a subsequence of the input: the input's key order is kept |
| LinkedinProfile.MinimalProfileKeysUnique | src/chapter_2/linkedin.py:10-12 | the result's keys are unique when the input's are |
| SourceFormatting.Sort | src/chapter_6/app.py:57 | the result is sorted in Python's string order and a permutation of the input |
| SourceFormatting.SortStrict | src/chapter_6/app.py:56-57 | sorting the listing of a set gives a strictly ascending sequence |
| SourceFormatting.StrictlyAscendingUnique | src/chapter_6/app.py:56-57 | two strictly ascending sequences with the same elements are equal, so the sorted list is determined by the set |
| SourceFormatting.FormatSourcesOrderIndependent | src/chapter_6/app.py:56-58 | the output does not depend on the order in which the set is listed |
| SourceFormatting.FormatSourcesEmpty | src/chapter_6/app.py:58 | the output is empty exactly for the empty set |
| SourceFormatting.FormatSourcesLines | src/chapter_6/app.py:52-58 | when no source contains a newline, the output splits by newline into one line per source; line k is `"{k}. {source}"` for the k-th source in ascending order, numbered from 1, and nothing trails the last line |
| SourceFormatting.SourceListing | src/chapter_6/app.py:65 | succeeds exactly when every document has a `source`, else KeyError("source"); the listing has no duplicates and holds exactly the documents' sources |
| SourceFormatting.FormatResponse | src/chapter_6/app.py:61-66 | succeeds exactly when every document has a `source`; otherwise fails with KeyError("source") |
| SourceFormatting.FormatResponseShape | src/chapter_6/app.py:66 | the response is `result + "\n\nSources:\n" + format_sources(sources)` for any listing of the set of sources |
| SourceFormatting.FormatResponseListsEachSourceOnce | src/chapter_6/app.py:65-66 | each distinct document source is on exactly one numbered line, in ascending order, even when several documents share it, and every line names a document's source |
| SourceFormatting.ExampleListing | src/chapter_6/app.py:65 | three documents citing "b", "a", "b" give the two sources "b" and "a" |
| SourceFormatting.ExampleSourcesFormatted | src/chapter_6/app.py:56-58 | the sources "b" and "a" are formatted as "1. a\n2. b" |
| PineconeIngestion.SaveEmbeddings | src/chapter_5/pinecone_ingestion.py:35-51 | one store call per batch, as many as the printed total (none for no documents); call k gets the slice starting at offset 100 k, below the length, with the same embeddings and index name; the progress lines are numbered 1 to that total without gaps |
| PineconeIngestion.BatchesConcat | src/chapter_5/pinecone_ingestion.py:42-43 | the batches concatenated in order are the documents: nothing dropped or duplicated |
| PineconeIngestion.BatchesSizes | src/chapter_5/pinecone_ingestion.py:40-43 | every batch has 1 to 100 documents, and every batch but the last exactly 100 |
| PineconeIngestion.BatchesCount | src/chapter_5/pinecone_ingestion.py:45 | the number of batches is `(len(docs) + 99) // 100` |
| PineconeIngestion.BatchesAtOffsets | src/chapter_5/pinecone_ingestion.py:42-43 | batch k is `docs[100 k : 100 k + 100]` and its start lies below the length |
| FaissIngestion.RewriteSources | src/chapter_6/faiss_ingestion.py:61-64 | each chunk up to the first without a `source` has its `source` rewritten; at that chunk the loop stops with a KeyError; later chunks are untouched; every chunk's text is unchanged |
| FaissIngestion.RewriteTouchesOnlySource | src/chapter_6/faiss_ingestion.py:62-64 | the rewrite adds and removes no key and changes no entry but `source` |
| FaissIngestion.RewriteWithoutPath | src/chapter_6/faiss_ingestion.py:62-64 | a source not containing the directory is left unchanged |
| FaissIngestion.RewriteFileUnderPath | src/chapter_6/faiss_ingestion.py:62-64 | a source `path + suffix`, with no further occurrence of `path`, becomes the documentation URL followed by `suffix` |
| FaissIngestion.RewriteEveryOccurrence | src/chapter_6/faiss_ingestion.py:62-64 | every non-overlapping occurrence of the directory, left to right, is replaced: the source is split at the directory, no piece still contains it, and the pieces are joined with the URL |
| PythonStrings.ReplaceWithoutOccurrence | src/chapter_6/faiss_ingestion.py:62-64 | `str.replace` leaves a string without the pattern unchanged |
| PythonStrings.ReplaceLeadingOnly | src/chapter_6/faiss_ingestion.py:62-64 | `(p + t).replace(p, r)` is `r + t` when `p` is not in `t` |
| PythonStrings.ReplaceIsJoinOfSplit | src/chapter_6/faiss_ingestion.py:62-64 | `s.replace(p, r)` equals `r.join(s.split(p))` for a non-empty `p` |
| PythonStrings.ReplaceBySelf | src/chapter_6/faiss_ingestion.py:62-64 | replacing a pattern by itself changes nothing |
| PythonStrings.JoinOfSplit | src/chapter_6/app.py:58 | joining the pieces of a split with the separator gives the string back |
| PythonStrings.SplitOfJoin | src/chapter_6/app.py:58 | splitting a newline-join of lines that contain no newline gives the lines back |
| PythonStrings.LessTotal | src/chapter_6/app.py:57 | Python's string order is total |
| PythonStrings.LessTransitive | src/chapter_6/app.py:57 | Python's string order is transitive |
| PythonStrings.LessIrreflexive | src/chapter_6/app.py:57 | no string is less than itself |
| PythonStrings.DecimalString | src/chapter_6/app.py:58 | `str(i + 1)` is a non-empty string of decimal digits with no leading zero, and "0" only for zero |
| PythonStrings.DecimalStringRoundTrip | src/chapter_6/app.py:58 | the digits of `str(n)` denote `n` |
| ReasonActGraph.ShouldContinue | src/chapter_8/main.py:13-16 | fails exactly on an empty message list; otherwise gives END exactly when the last message has no tool calls, and `act` otherwise |
| ReasonActGraph.ShouldContinueLastOnly | src/chapter_8/main.py:13-14 | the routing depends on the last message only |
| ReasonActGraph.RunGraph | src/chapter_8/main.py:19-34 | the node-by-node execution (current node, message state, visited nodes updated at each step) gives exactly the run of the reference `Graph`, whose path properties `GraphPath` and `GraphShape` state |
| ReasonActGraph.RunAtFollowsEdges | src/chapter_8/main.py:21-32 | a run from any node starts at that node and takes only the edges reason→END, reason→act and act→reason |
| ReasonActGraph.GraphPath | src/chapter_8/main.py:21-32 | the whole run starts at `agent_reason` and follows the edges |
| ReasonActGraph.RunAtShape | src/chapter_8/main.py:13-32 | from `agent_reason`, the path is one reason/act round per answer with tool calls, up to the first answer without them, then reason and END; the last message is then that answer |
| ReasonActGraph.GraphShape | src/chapter_8/main.py:13-32 | the visited nodes are `reason (act reason)* END`; the run ends exactly when some answer has no tool calls, right after the first such answer |

## Left out

- The model calls and prompt templates (`ChatOllama`, the ReAct output parser, `hub.pull`) are
  left out. They are foreign library calls. The reasoning step of chapter 4 is a parameter,
  and the answers in chapter 8 are a script.
- ReactLoop.RunAgent: the real loop runs until the model stops it. The model bounds the number
  of model calls by `fuel` and ends with `OutOfFuel` when that bound is reached. This is a
  modelling artefact, not a cap in the code.
- ReactLoop: the parser raises `OutputParserException` rather than returning a third kind of
  step. The `Other` step covers the code's last `elif` branch, which the code itself handles.
- ReactLoop: a tool that raises propagates out of the loop in the code. Tools are modelled as
  total functions, so that path is not represented.
- ReactLoop: a tool error is not caught, consecutive actions are never capped, and reaching
  the limit only prints and breaks, as a finish does. The `Outcome` datatype names each way
  the modelled loop ends.
- ReactLoop.RunAgent: a reasoning step that raises (the parser's `OutputParserException`, or
  any error of `agent.invoke`) ends `main` with that exception. That path is not represented,
  because the reasoning step is a total function. The `***Loop: n***` banner printed at the
  top of each iteration is not recorded.
- ReactLoop: `format_log_to_str`, which renders the scratchpad into the prompt text, is a
  library function. The prompt is modelled as the scratchpad itself.
- ReactLoop: `str(tool_input)` is the identity, because the parser yields a string input.
- LinkedinProfile: the JSON numbers inside a profile are `real`. Python's distinction between
  `int` and `float` values is not modelled; the filter never inspects numbers.
- LinkedinProfile: `value in ([], "", None)` uses Python equality, which holds only for those
  three values (a `False`, a `0` or a `{}` is kept), so the three values are matched
  structurally.
- SourceFormatting: Python lists a set in an order it does not specify. `FormatSources` takes
  any listing without duplicates, and `FormatSourcesOrderIndependent` shows that the order
  does not matter.
- SourceFormatting: `answer.get("source_documents")` is taken to be a list. A missing key
  gives `None`, and iterating over it raises a `TypeError`, which is not modelled.
- SourceFormatting: `answer.get('result')` is taken to be present. Were it missing, the
  f-string would print "None".
- PineconeIngestion: the embeddings and the vector-store call are foreign library calls.
  Each call is recorded with its arguments. `os.getenv` is read by the caller and passed in
  as an `Option`.
- PineconeIngestion: `print` is recorded as the two numbers of each progress line.
- PineconeIngestion: `load_pdf_documents`, `split_documents` and `get_embeddings` are
  library calls and are not modelled.
- FaissIngestion.RewriteSources: it requires the chunk objects to be distinct. The text
  splitter creates a fresh object per chunk. A list holding the same object twice, which that
  caller never passes, would be rewritten twice.
- FaissIngestion: the metadata dictionary is modelled as a value field of the chunk object,
  updated in place. Two chunks sharing one dictionary object is not modelled; the splitter
  copies metadata per chunk.
- FaissIngestion: metadata values are modelled as strings. A non-string `source` would make
  `.replace` raise, and that is not modelled.
- FaissIngestion: the loader, splitter, embeddings and `save_local` are library calls and are
  not modelled.
- ReasonActGraph.RunGraph: the script of answers can run out before the run ends. The run
  then stops with `OutOfResponses`, a modelling artefact like `fuel`.
- ReasonActGraph: LangGraph's default recursion limit of 25 steps is not modelled. Neither
  is the `debug=True` tracing.
- ReasonActGraph: `MessagesState` merges messages with the same id. The model simply
  appends, which is what happens for the fresh messages returned by `reason` and the tool
  node.
- ReasonActGraph: the tool node runs the tools in LangGraph's `ToolNode`, which is library
  code. It is a parameter: a function from the message list to the messages it appends.
- ReasonActGraph: `print_graph` and the final `print` are I/O and are left out.
- The Streamlit interface and session state of chapter 6, the Flask endpoint, the
  interactive stdin loops and the `AgentExecutor` and `create_*_agent` setups are left out.
  They are user-interface plumbing or configuration of library agents.
- HTTP and search calls (scrapin.io, Tavily) and reading the mock profile file are left out.
  They are network and file I/O.
