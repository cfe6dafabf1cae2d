/** The query side: the configuration check made when the RAG chain is
    built, the build-once cache in front of the builder, and the question
    check of the top-level entry point. The embedding model, the store
    client, the generator and the prompt are not modelled; a built chain
    keeps the configuration it was built from and the model names it uses. */
module Chat {
  import opened Wrappers
  import opened PyText
  import EnvFile
  import Retrieval

  const MissingConfigMessage := "Missing SUPABASE_URL, SUPABASE_SERVICE_KEY, or GROQ_API_KEY in .env"
  const EmptyQuestionMessage := "Question cannot be empty"
  const EmbeddingModel := "sentence-transformers/all-MiniLM-L6-v2"
  const GeneratorModel := "llama-3.3-70b-versatile"

  datatype Config = Config(supabaseUrl: string, serviceKey: string, groqKey: string)

  /** The three settings the chain needs; each must be present and non-empty. */
  function CheckConfig(env: map<string, string>): (r: Result<Config, Exception>)
    ensures r.Success? <==>
              && EnvFile.SupabaseUrlVar in env && env[EnvFile.SupabaseUrlVar] != ""
              && EnvFile.ServiceKeyVar in env && env[EnvFile.ServiceKeyVar] != ""
              && EnvFile.GroqKeyVar in env && env[EnvFile.GroqKeyVar] != ""
    ensures r.Success? ==>
              r.value == Config(env[EnvFile.SupabaseUrlVar], env[EnvFile.ServiceKeyVar], env[EnvFile.GroqKeyVar])
    ensures r.Failure? ==> r.error == ValueError(MissingConfigMessage)
  {
    var url := EnvFile.GetEnv(env, EnvFile.SupabaseUrlVar);
    var key := EnvFile.GetEnv(env, EnvFile.ServiceKeyVar);
    var groq := EnvFile.GetEnv(env, EnvFile.GroqKeyVar);
    if !Truthy(url) || !Truthy(key) || !Truthy(groq) then Failure(ValueError(MissingConfigMessage))
    else Success(Config(url.value, key.value, groq.value))
  }

  /** What the chain hands to the prompt: the retrieved context and the question. */
  datatype PromptInput = PromptInput(context: string, question: string)

  /** A built RAG chain. Each build allocates a new one, so two results are
      the same chain exactly when they are the same object. */
  class RagChain {
    const config: Config
    const embeddingModel: string
    const generatorModel: string

    constructor (config: Config)
      ensures this.config == config
      ensures embeddingModel == EmbeddingModel && generatorModel == GeneratorModel
    {
      this.config := config;
      embeddingModel := EmbeddingModel;
      generatorModel := GeneratorModel;
    }

    /** The first stage of `rag_chain.invoke`: the context comes from the
        retriever over the rows the store returned for this question, and
        the question is passed through. */
    function Invoke(question: string, rows: seq<Retrieval.Row>): (p: PromptInput)
      ensures p.question == question
      ensures p.context != ""
      ensures rows == [] ==> p.context == Retrieval.NoContext
    {
      PromptInput(Retrieval.Retrieve(rows), question)
    }
  }

  /** `_build_rag_chain` behind `lru_cache(maxsize=1)`. A successful build is
      remembered and returned by every later call, whatever the environment
      then holds; a raised exception is not remembered, so the next call
      builds again. `builds` counts the chains constructed so far. */
  class RagChainCache {
    var cached: Option<RagChain>
    ghost var builds: nat

    constructor ()
      ensures cached == None && builds == 0
    {
      cached := None;
      builds := 0;
    }

    /** One call of the cached builder. `file` is the module file,
        `pathExists` the file system, `env` the environment once the `.env`
        is loaded, and `clientError` the exception, if any, that creating
        the store client, the embedding model or the generator raises. */
    method Get(file: EnvFile.Path, pathExists: EnvFile.Path -> bool, env: map<string, string>,
               clientError: Option<Exception>)
      returns (r: Result<RagChain, Exception>)
      modifies this
      ensures old(cached).Some? ==>
                r == Success(old(cached).value) && unchanged(this)
      ensures old(cached).None? && r.Failure? ==>
                Some(r.error) == BuildError(EnvFile.Locate(file, pathExists), CheckConfig(env), clientError)
                && cached == None && builds == old(builds)
      ensures old(cached).None? && r.Success? ==>
                && BuildError(EnvFile.Locate(file, pathExists), CheckConfig(env), clientError).None?
                && fresh(r.value)
                && r.value.config == CheckConfig(env).value
                && cached == Some(r.value) && builds == old(builds) + 1
      ensures old(cached).None? ==>
                (r.Success? <==> BuildError(EnvFile.Locate(file, pathExists), CheckConfig(env), clientError).None?)
    {
      if cached.Some? {
        return Success(cached.value);
      }
      var found := EnvFile.FindEnvFile(file, pathExists);
      if found.Failure? {
        return Failure(found.error);
      }
      var config := CheckConfig(env);
      if config.Failure? {
        return Failure(config.error);
      }
      if clientError.Some? {
        return Failure(clientError.value);
      }
      var chain := new RagChain(config.value);
      cached := Some(chain);
      builds := builds + 1;
      return Success(chain);
    }
  }

  /** The exception an uncached build raises, if any: a missing `.env`
      first, then a missing setting, then a failure of the foreign
      constructors. */
  function BuildError(found: Result<EnvFile.Path, Exception>, config: Result<Config, Exception>,
                      clientError: Option<Exception>): (e: Option<Exception>)
    ensures found.Failure? ==> e == Some(found.error)
    ensures found.Success? && config.Failure? ==> e == Some(config.error)
    ensures found.Success? && config.Success? ==> e == clientError
    ensures e.None? <==> found.Success? && config.Success? && clientError.None?
  {
    if found.Failure? then Some(found.error)
    else if config.Failure? then Some(config.error)
    else clientError
  }

  /** `not question or not question.strip()`: a question is rejected exactly
      when it has no character other than whitespace, the empty question included. */
  predicate IsBlank(question: string)
    ensures IsBlank(question) <==> forall i :: 0 <= i < |question| ==> IsSpace(question[i])
  {
    StripEmpty(question);
    question == "" || Strip(question) == ""
  }

  /** `ask_math_1050`: reject a blank question before the chain is touched,
      then get the chain and run it. `rows` is what the store returns for
      the question and `invokeError` the exception, if any, that embedding
      the question, querying the store or calling the generator raises. The
      generator's answer is not modelled, so the result is the input the
      chain passes to the prompt. */
  method AskMath1050(cache: RagChainCache, question: string, file: EnvFile.Path,
                     pathExists: EnvFile.Path -> bool, env: map<string, string>,
                     clientError: Option<Exception>, rows: seq<Retrieval.Row>,
                     invokeError: Option<Exception>)
    returns (r: Result<PromptInput, Exception>)
    modifies cache
    ensures IsBlank(question) ==>
              r == Failure(ValueError(EmptyQuestionMessage)) && unchanged(cache)
    ensures !IsBlank(question) && old(cache.cached).Some? ==>
              && unchanged(cache)
              && r == if invokeError.Some? then Failure(invokeError.value)
                      else Success(old(cache.cached).value.Invoke(question, rows))
    ensures !IsBlank(question) && old(cache.cached).None? ==>
              var buildError := BuildError(EnvFile.Locate(file, pathExists), CheckConfig(env), clientError);
              && (buildError.Some? ==>
                    r == Failure(buildError.value)
                    && cache.cached == None && cache.builds == old(cache.builds))
              && (buildError.None? ==>
                    && cache.cached.Some? && fresh(cache.cached.value)
                    && cache.cached.value.config == CheckConfig(env).value
                    && cache.builds == old(cache.builds) + 1
                    && r == if invokeError.Some? then Failure(invokeError.value)
                            else Success(PromptInput(Retrieval.Retrieve(rows), question)))
    ensures r.Success? ==> r.value == PromptInput(Retrieval.Retrieve(rows), question)
  {
    if question == "" || Strip(question) == "" {
      return Failure(ValueError(EmptyQuestionMessage));
    }
    var chain := cache.Get(file, pathExists, env, clientError);
    if chain.Failure? {
      return Failure(chain.error);
    }
    if invokeError.Some? {
      return Failure(invokeError.value);
    }
    return Success(chain.value.Invoke(question, rows));
  }

  /** Two calls in a row with no failure in between yield the same chain and
      build it at most once. */
  method GetTwice(cache: RagChainCache, file: EnvFile.Path, pathExists: EnvFile.Path -> bool,
                  env1: map<string, string>, env2: map<string, string>,
                  clientError1: Option<Exception>, clientError2: Option<Exception>)
    returns (first: Result<RagChain, Exception>, second: Result<RagChain, Exception>)
    modifies cache
    ensures first.Success? ==> second == first
    ensures cache.builds <= old(cache.builds) + 1
  {
    first := cache.Get(file, pathExists, env1, clientError1);
    second := cache.Get(file, pathExists, env2, clientError2);
  }
}
