/**
 * The receiver's command line (manejarArgumentos in src/server.c): exactly
 * four arguments after the program name, read as flag/value pairs
 * `-p PIPE` and `-f DATABASE`. mostrarUso, which exits with
 * ERROR_ARG_NOVAL, becomes a Failure; a name the loop never sets is None.
 */
module ServerArgs {
  import opened Wrappers
  import opened Common
  import opened ClientArgs

  /** The receiving pipe's name and the database file name, where set. */
  datatype ServerOptions = ServerOptions(pipeNom: Option<string>, fileIn: Option<string>)

  /** One flag/value pair: `-p` sets the pipe, `-f` the file, each only once; any other letter is refused. */
  function TakePair(acc: ServerOptions, flag: string, value: string): (r: Result<ServerOptions, int>)
    ensures r.Failure? ==> r.error == ErrorArgNoval
    ensures r.Success? ==> CharAt(flag, 1) == 'p' || CharAt(flag, 1) == 'f'
  {
    var letter := CharAt(flag, 1);
    if letter == 'p' then
      if acc.pipeNom.Some? then Failure(ErrorArgNoval) else Success(acc.(pipeNom := Some(value)))
    else if letter == 'f' then
      if acc.fileIn.Some? then Failure(ErrorArgNoval) else Success(acc.(fileIn := Some(value)))
    else Failure(ErrorArgNoval)
  }

  /**
   * The outcome for a whole command line: the count must be five; the
   * pairs are read while the flag position starts with '-'.
   */
  function ServerArguments(argv: seq<string>): (r: Result<ServerOptions, int>)
    ensures r.Failure? ==> r.error == ErrorArgNoval
  {
    if |argv| != 5 then Failure(ErrorArgNoval)
    else if !Dashed(argv[1]) then Success(ServerOptions(None, None))
    else
      match TakePair(ServerOptions(None, None), argv[1], argv[2])
      case Failure(e) => Failure(e)
      case Success(first) =>
        if !Dashed(argv[3]) then Success(first)
        else TakePair(first, argv[3], argv[4])
  }

  /** Any count other than five is refused. */
  lemma WrongCountRefused(argv: seq<string>)
    requires |argv| != 5
    ensures ServerArguments(argv) == Failure(ErrorArgNoval)
  {
  }

  /** `-p PIPE -f FILE` in either order sets both names from the values that follow the flags. */
  lemma BothPairsAccepted(argv: seq<string>)
    requires |argv| == 5 && Dashed(argv[1]) && Dashed(argv[3])
    requires {CharAt(argv[1], 1), CharAt(argv[3], 1)} == {'p', 'f'}
    ensures ServerArguments(argv).Success?
    ensures var k := if CharAt(argv[1], 1) == 'p' then 1 else 3;
      ServerArguments(argv).value == ServerOptions(Some(argv[k + 1]), Some(argv[4 - k + 1]))
  {
    if CharAt(argv[1], 1) == 'p' {
      assert CharAt(argv[3], 1) == 'f';
    } else {
      assert CharAt(argv[1], 1) == 'f' && CharAt(argv[3], 1) == 'p';
    }
  }

  /** A flag letter given twice, or a letter other than p and f, is refused. */
  lemma BadPairsRefused(argv: seq<string>)
    requires |argv| == 5 && Dashed(argv[1]) && Dashed(argv[3])
    requires CharAt(argv[1], 1) == CharAt(argv[3], 1) ||
             CharAt(argv[1], 1) !in {'p', 'f'} || CharAt(argv[3], 1) !in {'p', 'f'}
    ensures ServerArguments(argv) == Failure(ErrorArgNoval)
  {
  }

  /**
   * The loop stops at the first flag position without a leading '-': with
   * argv[1] plain nothing is set, and with argv[3] plain only the first pair is.
   */
  lemma PlainArgumentStopsReading(argv: seq<string>)
    requires |argv| == 5
    ensures !Dashed(argv[1]) ==> ServerArguments(argv) == Success(ServerOptions(None, None))
    ensures Dashed(argv[1]) && !Dashed(argv[3]) && CharAt(argv[1], 1) == 'p' ==>
              ServerArguments(argv) == Success(ServerOptions(Some(argv[2]), None))
    ensures Dashed(argv[1]) && !Dashed(argv[3]) && CharAt(argv[1], 1) == 'f' ==>
              ServerArguments(argv) == Success(ServerOptions(None, Some(argv[2])))
  {
  }

  /**
   * manejarArgumentos: after the count check, each step reads the flag at
   * argv[1] and its value at argv[2], then moves argv on by two.
   */
  method HandleArguments(argv: seq<string>) returns (r: Result<ServerOptions, int>)
    ensures r == ServerArguments(argv)
  {
    if |argv| != 5 {
      return Failure(ErrorArgNoval);
    }
    var argPipe, argIn := false, false;
    var pipeNom: Option<string> := None;
    var fileIn: Option<string> := None;
    ghost var first := TakePair(ServerOptions(None, None), argv[1], argv[2]);
    // `shift` counts the argv += 2 steps; argc is |argv| - shift.
    var shift := 0;
    while |argv| - shift > 1 && CharAt(argv[shift + 1], 0) == '-'
      invariant shift == 0 || shift == 2 || shift == 4
      invariant argPipe == pipeNom.Some? && argIn == fileIn.Some?
      invariant shift == 0 ==> pipeNom == None && fileIn == None
      invariant shift >= 2 ==> Dashed(argv[1]) && first.Success?
      invariant shift == 2 ==> first == Success(ServerOptions(pipeNom, fileIn))
      invariant shift == 4 ==>
                  (Dashed(argv[3]) && TakePair(first.value, argv[3], argv[4]) == Success(ServerOptions(pipeNom, fileIn)))
    {
      var flag := argv[shift + 1];
      var letter := CharAt(flag, 1);
      if letter == 'p' {
        if argPipe {
          return Failure(ErrorArgNoval);
        }
        argPipe := true;
        pipeNom := Some(argv[shift + 2]);
      } else if letter == 'f' {
        if argIn {
          return Failure(ErrorArgNoval);
        }
        argIn := true;
        fileIn := Some(argv[shift + 2]);
      } else {
        return Failure(ErrorArgNoval);
      }
      shift := shift + 2;
    }
    r := Success(ServerOptions(pipeNom, fileIn));
  }
}
