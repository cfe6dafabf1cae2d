/** The ingestion side: the credential checks made before the store client
    is created, and the pass that removes null characters from every chunk
    before upload. Loading the PDF, splitting it into chunks, embedding and
    uploading are not modelled; the chunks are an input. */
module Ingest {
  import opened Wrappers
  import opened PyText
  import EnvFile

  const PublishablePrefix := "sb_publishable_"
  const MissingMessage := "Missing SUPABASE_URL or SUPABASE_SERVICE_KEY in .env"
  const PublishableMessage :=
    "SUPABASE_SERVICE_KEY is set to a publishable key. Use your Supabase secret/service_role key for ingestion."
  const Nul: char := '\0'

  datatype Credentials = Credentials(url: string, serviceKey: string)

  /** The URL and the service key must both be present and non-empty, and the
      key must not be a publishable one; the presence check comes first. */
  function CheckCredentials(env: map<string, string>): (r: Result<Credentials, Exception>)
    ensures r.Success? <==>
              && EnvFile.SupabaseUrlVar in env && env[EnvFile.SupabaseUrlVar] != ""
              && EnvFile.ServiceKeyVar in env && env[EnvFile.ServiceKeyVar] != ""
              && !(|PublishablePrefix| <= |env[EnvFile.ServiceKeyVar]| &&
                   env[EnvFile.ServiceKeyVar][..|PublishablePrefix|] == PublishablePrefix)
    ensures r.Success? ==> r.value == Credentials(env[EnvFile.SupabaseUrlVar], env[EnvFile.ServiceKeyVar])
    ensures (EnvFile.SupabaseUrlVar !in env || env[EnvFile.SupabaseUrlVar] == "" ||
             EnvFile.ServiceKeyVar !in env || env[EnvFile.ServiceKeyVar] == "") ==>
              r == Failure(ValueError(MissingMessage))
    ensures EnvFile.SupabaseUrlVar in env && env[EnvFile.SupabaseUrlVar] != "" &&
            EnvFile.ServiceKeyVar in env && env[EnvFile.ServiceKeyVar] != "" &&
            |PublishablePrefix| <= |env[EnvFile.ServiceKeyVar]| &&
            env[EnvFile.ServiceKeyVar][..|PublishablePrefix|] == PublishablePrefix ==>
              r == Failure(ValueError(PublishableMessage))
  {
    var url := EnvFile.GetEnv(env, EnvFile.SupabaseUrlVar);
    var key := EnvFile.GetEnv(env, EnvFile.ServiceKeyVar);
    if !Truthy(url) || !Truthy(key) then Failure(ValueError(MissingMessage))
    else if StartsWith(key.value, PublishablePrefix) then Failure(ValueError(PublishableMessage))
    else Success(Credentials(url.value, key.value))
  }

  /** `s.replace("\x00", "")` */
  function RemoveNulls(s: string): (r: string)
    ensures Nul !in r
    ensures |r| <= |s|
  {
    if s == [] then []
    else (if s[0] == Nul then [] else [s[0]]) + RemoveNulls(s[1..])
  }

  /** Removing nulls distributes over concatenation: the characters kept stay in order. */
  lemma {:induction false} RemoveNullsAppend(a: string, b: string)
    ensures RemoveNulls(a + b) == RemoveNulls(a) + RemoveNulls(b)
  {
    if a == [] {
      assert a + b == b;
    } else {
      assert (a + b)[1..] == a[1..] + b;
      RemoveNullsAppend(a[1..], b);
    }
  }

  /** A string without nulls is left as it is. */
  lemma {:induction false} RemoveNullsNoNul(s: string)
    requires Nul !in s
    ensures RemoveNulls(s) == s
  {
    if s != [] {
      assert s[0] in s;
      assert Nul !in s[1..] by {
        forall c | c in s[1..] ensures c in s { }
      }
      RemoveNullsNoNul(s[1..]);
    }
  }

  /** Cleaning twice is cleaning once. */
  lemma RemoveNullsIdempotent(s: string)
    ensures RemoveNulls(RemoveNulls(s)) == RemoveNulls(s)
  {
    RemoveNullsNoNul(RemoveNulls(s));
  }

  /** Only nulls are removed: every other character keeps its count. */
  lemma {:induction false} RemoveNullsMultiset(s: string)
    ensures multiset(RemoveNulls(s)) == multiset(s)[Nul := 0]
  {
    if s != [] {
      RemoveNullsMultiset(s[1..]);
      assert s == [s[0]] + s[1..];
      assert multiset(s) == multiset([s[0]]) + multiset(s[1..]);
    }
  }

  /** A chunk produced by the splitter; only its text is rewritten. */
  class Chunk {
    var pageContent: string
    var metadata: map<string, string>

    constructor (pageContent: string, metadata: map<string, string>)
      ensures this.pageContent == pageContent && this.metadata == metadata
    {
      this.pageContent := pageContent;
      this.metadata := metadata;
    }
  }

  /** The cleaning loop: every chunk's text loses its nulls, in place. The same
      chunk may occur twice in the list; cleaning it again changes nothing. */
  method CleanChunks(chunks: seq<Chunk>)
    modifies set c | c in chunks
    ensures forall i :: 0 <= i < |chunks| ==>
              chunks[i].pageContent == RemoveNulls(old(chunks[i].pageContent))
    ensures forall i :: 0 <= i < |chunks| ==> chunks[i].metadata == old(chunks[i].metadata)
    ensures forall i :: 0 <= i < |chunks| ==> Nul !in chunks[i].pageContent
  {
    ghost var done: set<Chunk> := {};
    for i := 0 to |chunks|
      invariant done == set j | 0 <= j < i :: chunks[j]
      invariant forall c :: c in chunks ==>
                  c.pageContent == if c in done then RemoveNulls(old(c.pageContent)) else old(c.pageContent)
      invariant forall c :: c in chunks ==> c.metadata == old(c.metadata)
    {
      var chunk := chunks[i];
      RemoveNullsIdempotent(old(chunk.pageContent));
      chunk.pageContent := RemoveNulls(chunk.pageContent);
      done := done + {chunk};
    }
  }

  /** One ingestion run up to the upload: find the `.env`, check the
      credentials, create the store client (`clientError` is the exception
      it raises, if any), then clean the chunks. Any failure comes before
      the cleaning and leaves the chunks untouched. */
  method Ingest(file: EnvFile.Path, pathExists: EnvFile.Path -> bool, env: map<string, string>,
                clientError: Option<Exception>, chunks: seq<Chunk>)
    returns (r: Result<Credentials, Exception>)
    modifies set c | c in chunks
    ensures EnvFile.Locate(file, pathExists).Failure? ==>
              r == Failure(EnvFile.Locate(file, pathExists).error)
    ensures EnvFile.Locate(file, pathExists).Success? && CheckCredentials(env).Failure? ==>
              r == CheckCredentials(env)
    ensures EnvFile.Locate(file, pathExists).Success? && CheckCredentials(env).Success? ==>
              r == if clientError.Some? then Failure(clientError.value) else CheckCredentials(env)
    ensures r.Failure? ==> forall i :: 0 <= i < |chunks| ==> chunks[i].pageContent == old(chunks[i].pageContent)
    ensures r.Success? ==> forall i :: 0 <= i < |chunks| ==>
              chunks[i].pageContent == RemoveNulls(old(chunks[i].pageContent))
    ensures forall i :: 0 <= i < |chunks| ==> chunks[i].metadata == old(chunks[i].metadata)
  {
    var found := EnvFile.FindEnvFile(file, pathExists);
    if found.Failure? {
      return Failure(found.error);
    }
    r := CheckCredentials(env);
    if r.Failure? {
      return;
    }
    if clientError.Some? {
      return Failure(clientError.value);
    }
    CleanChunks(chunks);
  }
}
