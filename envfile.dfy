/** Discovery of the `.env` file: starting from the directory that holds
    the running module file, each ancestor directory is tried in turn,
    nearest first, and the first `.env` that exists is used. Both entry
    points of the system carry the same search. The file system is the
    predicate `pathExists` (`Path.exists()`); a path is its sequence of
    components, the root directory being the empty sequence. The settings
    read from the environment once the `.env` is loaded are here too. */
module EnvFile {
  import opened Wrappers
  import opened PyText

  type Path = seq<string>

  const EnvName := ".env"
  const NotFoundMessage := "Could not find .env in this directory or any parent directory"

  const SupabaseUrlVar := "SUPABASE_URL"
  const ServiceKeyVar := "SUPABASE_SERVICE_KEY"
  const GroqKeyVar := "GROQ_API_KEY"

  /** `os.getenv(name)` over the process environment `env`. */
  function GetEnv(env: map<string, string>, name: string): (r: Option<string>)
    ensures r.Some? <==> name in env
    ensures r.Some? ==> r.value == env[name]
  {
    if name in env then Some(env[name]) else None
  }

  /** `p.parent`; the root is its own parent. */
  function Parent(p: Path): Path
  {
    if p == [] then [] else p[..|p| - 1]
  }

  /** `p.parents`: every proper ancestor of `p`, nearest first, ending with the root. */
  function Parents(p: Path): (ps: seq<Path>)
    ensures |ps| == |p|
    ensures forall j :: 0 <= j < |ps| ==> ps[j] == p[..|p| - 1 - j]
  {
    if p == [] then [] else [Parent(p)] + Parents(Parent(p))
  }

  /** The number of components of the directory holding `file`. */
  function Depth(file: Path): nat
  {
    |Parent(file)|
  }

  /** `[current.parent, *current.parents]`: the directories searched, in order.
      The parent is listed twice, once on its own and once as the first of
      the parents. */
  function Candidates(file: Path): seq<Path>
  {
    [Parent(file)] + Parents(file)
  }

  /** Whether `dir / ".env"` exists. */
  predicate HasEnv(pathExists: Path -> bool, dir: Path)
  {
    pathExists(dir + [EnvName])
  }

  /** The first directory of `dirs` holding a `.env`, if any. */
  function FirstWithEnv(dirs: seq<Path>, pathExists: Path -> bool): (r: Option<nat>)
    ensures r.Some? ==> r.value < |dirs| && HasEnv(pathExists, dirs[r.value])
    ensures r.Some? ==> forall j :: 0 <= j < r.value ==> !HasEnv(pathExists, dirs[j])
    ensures r.None? <==> forall j :: 0 <= j < |dirs| ==> !HasEnv(pathExists, dirs[j])
  {
    if dirs == [] then None
    else if HasEnv(pathExists, dirs[0]) then Some(0)
    else match FirstWithEnv(dirs[1..], pathExists)
      case None => None
      case Some(j) => Some(j + 1)
  }

  /** What `_find_env_file` returns or raises for the module file `file`. */
  function Locate(file: Path, pathExists: Path -> bool): (r: Result<Path, Exception>)
    ensures r.Success? ==> pathExists(r.value) && |r.value| > 0 && r.value[|r.value| - 1] == EnvName
    ensures r.Success? ==> r.value[..|r.value| - 1] in Candidates(file)
    ensures r.Failure? ==> r.error == FileNotFoundError(NotFoundMessage)
    ensures r.Failure? <==> forall d :: d in Candidates(file) ==> !HasEnv(pathExists, d)
  {
    var dirs := Candidates(file);
    match FirstWithEnv(dirs, pathExists)
    case Some(j) => Success(dirs[j] + [EnvName])
    case None => Failure(FileNotFoundError(NotFoundMessage))
  }

  /** The candidate list holds exactly the prefixes of `file` no longer than
      its directory, longest (nearest) first. */
  lemma CandidatesAt(file: Path, j: nat)
    requires j < |Candidates(file)|
    ensures Candidates(file)[j] == file[..Depth(file) - (if j == 0 then 0 else j - 1)]
  {
  }

  /** The search returns the `.env` of the nearest directory on the path
      from `file` to the root that has one, and fails exactly when none does. */
  lemma LocateNearest(file: Path, pathExists: Path -> bool)
    ensures Locate(file, pathExists).Failure? <==>
              forall k :: 0 <= k <= Depth(file) ==> !HasEnv(pathExists, file[..k])
    ensures Locate(file, pathExists).Failure? ==>
              Locate(file, pathExists).error == FileNotFoundError(NotFoundMessage)
    ensures Locate(file, pathExists).Success? ==>
              exists k :: 0 <= k <= Depth(file) && HasEnv(pathExists, file[..k]) &&
                Locate(file, pathExists).value == file[..k] + [EnvName] &&
                forall k' :: k < k' <= Depth(file) ==> !HasEnv(pathExists, file[..k'])
  {
    var dirs := Candidates(file);
    var d := Depth(file);
    assert |dirs| == d + 2 || (file == [] && |dirs| == 1);
    // depth k is searched at index d - k + 1, and also at index 0 when k == d
    forall k | 0 <= k <= d ensures dirs[d - k + 1 - (if file == [] then 1 else 0)] == file[..k] {
      CandidatesAt(file, d - k + 1 - (if file == [] then 1 else 0));
    }
    match FirstWithEnv(dirs, pathExists)
    case None =>
      forall k | 0 <= k <= d ensures !HasEnv(pathExists, file[..k]) {
        assert dirs[d - k + 1 - (if file == [] then 1 else 0)] == file[..k];
      }
    case Some(j) =>
      CandidatesAt(file, j);
      var k := d - (if j == 0 then 0 else j - 1);
      assert dirs[j] == file[..k];
      forall k' | k < k' <= d ensures !HasEnv(pathExists, file[..k']) {
        assert dirs[d - k' + 1 - (if file == [] then 1 else 0)] == file[..k'];
      }
  }

  /** `_find_env_file`: try each candidate directory in order, returning at the first hit. */
  method FindEnvFile(file: Path, pathExists: Path -> bool) returns (r: Result<Path, Exception>)
    ensures r == Locate(file, pathExists)
  {
    var dirs := Candidates(file);
    for i := 0 to |dirs|
      invariant forall j :: 0 <= j < i ==> !HasEnv(pathExists, dirs[j])
    {
      var candidate := dirs[i] + [EnvName];
      if pathExists(candidate) {
        return Success(candidate);
      }
    }
    return Failure(FileNotFoundError(NotFoundMessage));
  }
}
