# MentoraBrain retrieval-augmented answering core, in Dafny

This project models the deterministic decision logic of the MentoraBrain
"Math 1050 professor". That logic sits between the external services: the
embedding model, the Supabase vector store, the Groq generator and the PDF
loader. The model covers:

- **Retrieval post-processing** (`manual_supabase_retriever`). Each row from the
  `match_documents` call gives one snippet: its `content`, otherwise its
  `page_content`, otherwise `""`. Empty snippets are dropped. The rest are
  joined with a blank line. If there are no rows, or nothing is left, the
  result is the sentinel `"No relevant textbook context found."`.
- **The build-once chain cache** (`_build_rag_chain` behind `lru_cache(maxsize=1)`).
  The chain is built only when `.env` is found and all three settings are
  non-empty. After a successful build, every later call gets the same chain
  object back. A failed build leaves nothing cached.
- **Question validation** (`ask_math_1050`). An empty or all-whitespace question
  raises `ValueError` before the cache is touched.
- **`.env` discovery** (`_find_env_file`, the same in both scripts). The module
  file's directory is tried first, then each ancestor, nearest first.
- **Ingestion checks and cleaning**. The URL and service key must be present, and
  the key must not be a `sb_publishable_` key. Both checks come before any
  chunk is touched. Then every chunk's `page_content` loses its `"\x00"`
  characters, in place.

Modules: `Wrappers` (Option, Result), `PyText` (Python truthiness,
`startswith`, `isspace`, `strip`, and the raised exceptions), `EnvFile`,
`Retrieval`, `Chat` and `Ingest`.

Modelling choices:

- Python exceptions become `Result.Failure` values. The ones the source raises
  itself carry its exception class and message. Any other exception a
  library call raises is `OtherError`, with its class name and message.
- A path is its sequence of components, with the root as `[]`. The file
  system is a predicate `pathExists`, standing for `Path.exists()`.
- The exceptions raised by the library constructors (`create_client`,
  `HuggingFaceEmbeddings`, `ChatGroq`) and by running the chain (embedding,
  the store call, the generator) are inputs of type `Option<Exception>`.
  `None` means the call succeeded.
- The process environment, as it stands after `load_dotenv`, is a
  `map<string, string>` parameter.
- Store rows are a datatype with two optional text fields.
- Chunks are objects whose `pageContent` field is rewritten in place.
- `Chat.RagChainCache.builds` is a ghost counter of constructed chains. It lets
  the contracts say "not rebuilt".

Two behaviours of the source to note:

- The chat configuration check itself (chat.py:40) rejects only settings that
  are missing or empty. Any further rejection of a bad URL or key is left to
  `create_client`, whose failure the model takes as an input.
- Once a chain is cached, it is returned even if the environment has changed
  since. `lru_cache` takes no arguments here, so it never looks at the
  environment again.

## Model

| member | source | states |
|---|---|---|
| `PyText.Or` | AIBrain/chat.py:63 | Python `a or b`: the result is truthy iff either operand is, and the first operand wins whenever it is truthy |
| `PyText.IsSpace` | AIBrain/chat.py:87 | `str.isspace` over the full set of Python whitespace code points: space, tab, line feed and carriage return are whitespace, and no letter, digit or NUL is |
| `PyText.StartsWith` | AIBrain/ingest.py:27 | `startswith` holds exactly when the prefix fits and equals the leading slice of the string |
| `PyText.TrimStart` | AIBrain/chat.py:87 | left strip: the result is a suffix, everything removed is whitespace, and the result does not start with whitespace |
| `PyText.TrimEnd` | AIBrain/chat.py:87 | right strip: the result is a prefix, everything removed is whitespace, and the result does not end with whitespace |
| `PyText.StripEmpty` | AIBrain/chat.py:87 | `s.strip()` is empty exactly when every character of `s` is whitespace |
| `EnvFile.Parents` | AIBrain/chat.py:25 | `path.parents` has one entry per component, and entry j is the prefix that drops the last j+1 components (nearest first, root last) |
| `EnvFile.FirstWithEnv` | AIBrain/chat.py:25-28 | the chosen index holds a `.env`, no earlier index does, and there is no result exactly when no directory has one |
| `EnvFile.Locate` | AIBrain/chat.py:23-29 | the outcome of `_find_env_file`: a found file is `.env` in one of the searched directories and exists; it raises `FileNotFoundError` with the source's message exactly when no searched directory has a `.env`. `EnvFile.LocateNearest` adds that the directory is the nearest one |
| `EnvFile.CandidatesAt` | AIBrain/chat.py:25 | `[current.parent, *current.parents]` lists the file's ancestor directories, longest first; the parent appears twice |
| `EnvFile.LocateNearest` | AIBrain/chat.py:23-29 | the search returns `dir/.env` for the nearest ancestor directory that has one; it raises `FileNotFoundError` with the source's message exactly when no ancestor has one (the same code is at ingest.py:11-17) |
| `EnvFile.FindEnvFile` | AIBrain/chat.py:23-29 | the early-return loop returns exactly what the search specification gives (also used for ingest.py:11-17) |
| `Retrieval.Snippet` | AIBrain/chat.py:62-65 | a row's snippet is non-empty iff either field is; it is `content` whenever that is non-empty, otherwise `page_content` |
| `Retrieval.SnippetsAppend` | AIBrain/chat.py:62-65 | the first comprehension yields one snippet per row, in row order: the snippets of two batches of rows are the first batch's snippets followed by the second's |
| `Retrieval.NonEmpty` | AIBrain/chat.py:66 | the kept snippets are exactly the non-empty ones; nothing is kept iff every snippet is empty |
| `Retrieval.Retrieve` | AIBrain/chat.py:59-71 | the retriever never returns the empty string |
| `Retrieval.Join` | AIBrain/chat.py:71 | `"\n\n".join(parts)`: empty for no parts; otherwise it starts with the first part, and its length is the parts' total length plus two characters per separator. `Retrieval.JoinAppend` and `Retrieval.JoinContains` give its order and containment |
| `Retrieval.JoinNonEmpty` | AIBrain/chat.py:71 | joining a non-empty list of non-empty snippets gives a non-empty text |
| `Retrieval.NonEmptyAppend` | AIBrain/chat.py:66 | filtering distributes over concatenation, so the surviving snippets keep the relative order of their rows |
| `Retrieval.JoinAppend` | AIBrain/chat.py:71 | for two non-empty lists `a` and `b`, `"\n\n".join(a + b)` is `join(a)`, a blank line, then `join(b)` |
| `Retrieval.JoinContains` | AIBrain/chat.py:71 | every joined snippet occurs, intact, in the joined text |
| `Retrieval.RetrieveNoRows` | AIBrain/chat.py:59-60 | no rows give exactly the sentinel `"No relevant textbook context found."` |
| `Retrieval.RetrieveAllEmpty` | AIBrain/chat.py:66-69 | rows that all lack text also give exactly the sentinel |
| `Retrieval.RetrieveJoins` | AIBrain/chat.py:68-71 | if some row has text, the context is exactly the surviving snippets joined with `"\n\n"` |
| `Retrieval.RetrieveContainsRow` | AIBrain/chat.py:62-71 | every row with text has that text in the context: its `content`, or its `page_content` when `content` is empty or absent |
| `Retrieval.RetrieveAppend` | AIBrain/chat.py:62-71 | row order is kept: when each of two batches of rows has at least one row with text, the context for both together is the first batch's context, a blank line, then the second's |
| `Chat.CheckConfig` | AIBrain/chat.py:36-41 | the build's configuration passes iff `SUPABASE_URL`, `SUPABASE_SERVICE_KEY` and `GROQ_API_KEY` are all set and non-empty; otherwise it raises `ValueError` with the source's message |
| `Chat.RagChain.constructor` | AIBrain/chat.py:43-46 | a new chain keeps its configuration and the fixed embedding and generator model names |
| `Chat.RagChain.Invoke` | AIBrain/chat.py:73-81 | the chain's prompt input is the retrieved context, which is never empty and is the sentinel when there are no rows, plus the question, unchanged |
| `Chat.RagChainCache.constructor` | AIBrain/chat.py:32 | the cache starts empty, with no chain built |
| `Chat.BuildError` | AIBrain/chat.py:34-45 | an uncached build raises the missing-`.env` error first, then the missing-setting error. Once both pass, it raises exactly the library constructors' exception, if any. It raises nothing exactly when the `.env` is found, the settings pass and the constructors succeed |
| `Chat.RagChainCache.Get` | AIBrain/chat.py:32-45 | a cached chain is returned unchanged, with no rebuild, whatever the environment now holds. Otherwise the call raises the build's exception and caches nothing, or builds one fresh chain from the configuration and caches it. It succeeds exactly when the build raises nothing |
| `Chat.GetTwice` | AIBrain/chat.py:32-33 | after a successful call, the next call returns the identical chain, and at most one chain is built over the two calls |
| `Chat.IsBlank` | AIBrain/chat.py:87-88 | `not question or not question.strip()`: a question is rejected exactly when all its characters are whitespace, including the empty question |
| `Chat.AskMath1050` | AIBrain/chat.py:86-91 | a blank question raises `ValueError("Question cannot be empty")` and leaves the cache untouched. Otherwise a cached chain is used unchanged. With an empty cache, a failed build propagates its exception and caches nothing, and a successful one caches one fresh chain built from the configuration. An exception from running the chain propagates. Any success is the retrieved context with the question |
| `Ingest.CheckCredentials` | AIBrain/ingest.py:21-30 | ingestion passes iff the URL and the service key are set and non-empty and the key does not start with `sb_publishable_`; a missing value raises the missing-setting error first, and a publishable key raises its own error |
| `Ingest.RemoveNulls` | AIBrain/ingest.py:50 | the cleaned text has no `"\x00"` and is no longer than the original |
| `Ingest.RemoveNullsAppend` | AIBrain/ingest.py:50 | cleaning distributes over concatenation, so the kept characters stay in order |
| `Ingest.RemoveNullsNoNul` | AIBrain/ingest.py:50 | text without nulls is left unchanged |
| `Ingest.RemoveNullsIdempotent` | AIBrain/ingest.py:50 | a second cleaning changes nothing |
| `Ingest.RemoveNullsMultiset` | AIBrain/ingest.py:50 | only nulls are removed: every other character keeps its number of occurrences |
| `Ingest.CleanChunks` | AIBrain/ingest.py:48-50 | after the loop, each chunk's text is its original text with the nulls removed, so no chunk contains `"\x00"`; metadata is unchanged, even when a chunk occurs twice in the list |
| `Ingest.Ingest` | AIBrain/ingest.py:19-32 | a missing `.env`, a failed credential check or a failing `create_client` aborts the run with that exception before any chunk is changed; otherwise every chunk is cleaned |

## Left out

- The embedding model, the `match_documents` call, the Groq generator, the prompt template, the LangChain pipe and the output parser (chat.py:43-57, 73-81) are external services. The rows the store returns are an input to the model, and `Chat.RagChain.Invoke` ends at the prompt's input. Whether these calls raise is an input (`clientError`, `invokeError`); when and why they raise is not modelled.
- The match threshold (0.3), the match count (5) and the temperature (0.2) are parameters of those services. Nothing in the modelled logic depends on them.
- PDF loading, `RecursiveCharacterTextSplitter` and the upload to the `documents` table (ingest.py:35-44, 53-66) are library code. The chunks are an input, and the upload is not modelled.
- `load_dotenv`, including its rule of not overriding variables that are already set, and `Path.resolve` are not modelled. The environment after loading and the resolved module path are inputs.
- The `__main__` block's `input`/`print` console I/O (chat.py:94-101) and the script-level `print` calls in ingest.py are not modelled.
- Thread safety of `lru_cache` is concurrency and is not modelled.
- AIBrain/testTTS.py is a streaming speech session and is not part of this model.
- `rpc_res.data` is modelled as a list. A `None` answer behaves the same as an empty list in the source, and the model does not distinguish the two.
- Row fields that hold something other than a string (or `None`) are not modelled.
- `Chat.AskMath1050` does not model the generator's answer. It returns the chain's prompt input in its place.
