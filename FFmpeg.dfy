/** The FFmpeg engine as the services see it: an object with a loaded flag and an
    in-memory working set of named files. Whether each call into the engine succeeds
    is an input of the call, since the engine itself is foreign code. */
module FFmpeg {
  import opened Outcomes
  import opened Media

  class Engine {
    /** The engine's in-memory file system. */
    var files: map<string, seq<byte>>
    var loaded: bool
    /** The asset sources `load` was called with, in order. */
    var attempts: seq<string>
    /** The argument lists `exec` was called with, in order. */
    var commands: seq<seq<string>>

    /** The message the engine rejects with when asked to read a file it does not have. */
    const missingFileMessage: string

    constructor(missingFileMessage: string)
      ensures files == map[] && !loaded && attempts == [] && commands == []
      ensures this.missingFileMessage == missingFileMessage
    {
      files := map[];
      loaded := false;
      attempts := [];
      commands := [];
      this.missingFileMessage := missingFileMessage;
    }

    /** `load` with the core and wasm assets fetched from `base`. */
    method Load(base: string, o: Step) returns (r: Step)
      modifies this
      ensures r == o
      ensures attempts == old(attempts) + [base]
      ensures loaded == (old(loaded) || o.Done?)
      ensures files == old(files) && commands == old(commands)
    {
      attempts := attempts + [base];
      if o.Done? {
        loaded := true;
      }
      r := o;
    }

    /** `writeFile(name, data)`: on success the file holds exactly `data`. */
    method WriteFile(name: string, data: seq<byte>, o: Step) returns (r: Step)
      modifies this
      ensures r == o
      ensures files == (if o.Done? then old(files)[name := data] else old(files))
      ensures loaded == old(loaded) && attempts == old(attempts) && commands == old(commands)
    {
      if o.Done? {
        files := files[name := data];
      }
      r := o;
    }

    /** `exec(args)`: on success the files the command produced join the working set. */
    method Exec(args: seq<string>, o: Step, produced: map<string, seq<byte>>) returns (r: Step)
      modifies this
      ensures r == o
      ensures commands == old(commands) + [args]
      ensures files == (if o.Done? then old(files) + produced else old(files))
      ensures loaded == old(loaded) && attempts == old(attempts)
    {
      commands := commands + [args];
      if o.Done? {
        files := files + produced;
      }
      r := o;
    }

    /** `readFile(name)`: the file's bytes, or the engine's rejection. */
    method ReadFile(name: string, o: Step) returns (r: Result<seq<byte>>)
      ensures o.Failed? ==> r == Err(o.message)
      ensures o.Done? && name in files ==> r == Ok(files[name])
      ensures o.Done? && name !in files ==> r == Err(missingFileMessage)
    {
      if o.Failed? {
        r := Err(o.message);
      } else if name in files {
        r := Ok(files[name]);
      } else {
        r := Err(missingFileMessage);
      }
    }

    /** `deleteFile(name)`: removes the file; deleting a file that is not there rejects. */
    method DeleteFile(name: string, o: Step) returns (r: Step)
      modifies this
      ensures r.Done? <==> o.Done? && name in old(files)
      ensures o.Failed? ==> r == o
      ensures files == (if r.Done? then old(files) - {name} else old(files))
      ensures loaded == old(loaded) && attempts == old(attempts) && commands == old(commands)
    {
      if o.Failed? {
        r := o;
      } else if name in files {
        files := files - {name};
        r := Done;
      } else {
        r := Failed(missingFileMessage);
      }
    }

    /** `terminate()`: the worker and its file system are discarded, whether or not the
        call itself reports an error. */
    method Terminate(o: Step) returns (r: Step)
      modifies this
      ensures r == o
      ensures !loaded && files == map[]
      ensures attempts == old(attempts) && commands == old(commands)
    {
      loaded := false;
      files := map[];
      r := o;
    }
  }
}
