/** The build cache of `Cache::Manager`: the `.arcana` folder remembers,
    per input file, the MD5 of its content under the MD5 of its path, and
    the profile the last build used. The folder is a pair of maps here:
    the `input` directory (file name to file content) and the `profile`
    file. */
module Cache {
  import opened Wrappers
  import opened Md5

  type Bytes = seq<byte>

  /** `read_file`: the content of a file, empty when it cannot be opened. */
  function ReadFile(files: map<Bytes, Bytes>, path: Bytes): (content: Bytes)
    ensures path !in files ==> content == []
    ensures path in files ==> content == files[path]
  {
    if path in files then files[path] else []
  }

  /** The profile `LoadCache` reads: the file's content, and empty when
      there is no profile file yet. */
  function Stored(profileFile: Option<Bytes>): Bytes {
    if profileFile.Some? then profileFile.value else []
  }

  /** The name the cache files a source file under: the MD5 of its path,
      as `Cache::MD5` computes it (with its length field). */
  function InputKey(path: Bytes): (key: string)
    ensures |key| == 32
  {
    Hex(Md5AsWritten(path))
  }

  /** `MD5_file`: `Cache::MD5` of a file's content. */
  function ContentHash(files: map<Bytes, Bytes>, path: Bytes): (hash: string)
    ensures |hash| == 32
  {
    Hex(Md5AsWritten(ReadFile(files, path)))
  }

  /** The test of `HasFileChanged`: no entry under the key, or an entry
      with another hash. */
  predicate Stale(cached: map<string, string>, key: string, hash: string) {
    key !in cached || cached[key] != hash
  }

  /** The input directory after `HasFileChanged`: the hash is written
      under the key exactly when the entry is stale. */
  function Recorded(cached: map<string, string>, dir: map<string, string>, key: string, hash: string): (d: map<string, string>)
    ensures Stale(cached, key, hash) ==> key in d && d[key] == hash
    ensures forall k | k in dir && (k != key || !Stale(cached, key, hash)) :: k in d && d[k] == dir[k]
    ensures d.Keys == dir.Keys + (if Stale(cached, key, hash) then {key} else {})
  {
    if Stale(cached, key, hash) then dir[key := hash] else dir
  }

  /** When the directory holds what the cache loaded, a file is current in
      the directory after it has been checked: the next build, which loads
      the directory again, reports it unchanged while its content stays
      the same. `Manager.HasFileChanged` leaves `inputDir` equal to
      `Recorded(...)` of the directory before it, so this is what a call
      of it guarantees to the next build's call. */
  lemma CheckedIsCurrent(cached: map<string, string>, dir: map<string, string>, key: string, hash: string)
    requires key in cached ==> key in dir && dir[key] == cached[key]
    ensures !Stale(Recorded(cached, dir, key, hash), key, hash)
  {
  }

  /** A second check against the same loaded cache gives the same answer
      and writes the same entry: two calls of `Manager.HasFileChanged` on
      one path, with the file unchanged between them, leave `inputDir` as
      one call does. */
  lemma CheckTwice(cached: map<string, string>, dir: map<string, string>, key: string, hash: string)
    ensures Recorded(cached, Recorded(cached, dir, key, hash), key, hash) == Recorded(cached, dir, key, hash)
  {
  }

  /** `Cache::Manager`: the loaded cache and the folder it comes from. */
  class Manager {
    /** `_cached_inputs`: the input directory as loaded by `LoadCache`. */
    var cachedInputs: map<string, string>
    /** `_cached_profile`. */
    var cachedProfile: Bytes
    /** The files of `.arcana/input`. */
    var inputDir: map<string, string>
    /** `.arcana/profile`, when it exists. */
    var profileFile: Option<Bytes>

    /** The manager over a cache folder as found on disk; nothing loaded
        yet. */
    constructor (dir: map<string, string>, profile: Option<Bytes>)
      ensures inputDir == dir && profileFile == profile
      ensures cachedInputs == map[] && cachedProfile == []
    {
      inputDir := dir;
      profileFile := profile;
      cachedInputs := map[];
      cachedProfile := [];
    }

    /** `LoadCache`: create a missing profile file empty, then load every
        input file and the profile. */
    method LoadCache()
      modifies this
      ensures cachedInputs == inputDir == old(inputDir)
      ensures profileFile == Some(cachedProfile)
      ensures cachedProfile == Stored(old(profileFile))
    {
      if profileFile.None? {
        profileFile := Some([]);
      }
      cachedInputs := inputDir;
      cachedProfile := profileFile.value;
    }

    /** `HandleProfileChange`: another profile than the loaded one drops
        every input entry, on disk and in memory; the profile file then
        records the new profile. The loaded profile stays as it was. */
    method HandleProfileChange(profile: Bytes)
      modifies this
      ensures cachedProfile != profile ==> inputDir == map[] && cachedInputs == map[]
      ensures cachedProfile == profile ==> inputDir == old(inputDir) && cachedInputs == old(cachedInputs)
      ensures profileFile == Some(profile) && cachedProfile == old(cachedProfile)
    {
      if cachedProfile != profile {
        inputDir := map[];
        cachedInputs := map[];
      }
      profileFile := Some(profile);
    }

    /** `HasFileChanged`: true iff the loaded cache has no entry for the
        file's key or an entry with another hash; then the new hash is
        written to the input directory. The loaded cache is not updated. */
    method HasFileChanged(path: Bytes, files: map<Bytes, Bytes>) returns (changed: bool)
      modifies this
      ensures changed <==> Stale(cachedInputs, InputKey(path), ContentHash(files, path))
      ensures inputDir == Recorded(cachedInputs, old(inputDir), InputKey(path), ContentHash(files, path))
      ensures unchanged(`cachedInputs, `cachedProfile, `profileFile)
    {
      var key := MD5(path);
      var hash := MD5(ReadFile(files, path));
      if key !in cachedInputs || cachedInputs[key] != hash {
        inputDir := inputDir[key := hash];
        changed := true;
      } else {
        changed := false;
      }
    }
  }

  /** The start of a build (`Arcana.cpp` loads the cache, then hands it
      the selected profile): with a new profile no input is cached, so
      every file is reported changed; with the same profile the inputs of
      the last build are. */
  method Start(m: Manager, profile: Bytes)
    modifies m
    ensures Stored(old(m.profileFile)) != profile ==> m.cachedInputs == map[]
    ensures Stored(old(m.profileFile)) == profile ==> m.cachedInputs == old(m.inputDir)
    ensures m.inputDir == m.cachedInputs && m.profileFile == Some(profile)
  {
    m.LoadCache();
    m.HandleProfileChange(profile);
  }
}
