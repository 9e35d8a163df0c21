/**
 * The requester's command line (manejarArgumentos and cortarArgumentos in
 * src/client.c). An argument is the sequence of its characters before the
 * terminating NUL; argv[0] is the program name, so argc is |argv|.
 * mostrarUso, which exits with ARG_INCORRECTOS, becomes a Failure.
 */
module ClientArgs {
  import opened Wrappers

  /** Exit status of mostrarUso (ARG_INCORRECTOS). */
  const ArgIncorrectos := 1

  /** Size of the name buffers (TAM_STRING). */
  const TamString := 20

  /** Character `i` of an argument; index |s| is its terminator. */
  function CharAt(s: string, i: nat): char
  {
    if i < |s| then s[i] else '\0'
  }

  /** The argument starts with '-'. */
  predicate Dashed(s: string)
  {
    CharAt(s, 0) == '-'
  }

  /** The argument is the flag `-<letter>` followed by its value. */
  predicate IsFlag(s: string, letter: char)
  {
    Dashed(s) && CharAt(s, 1) == letter
  }

  /** The value glued to a two-character flag: "-pNAME" gives "NAME". */
  function FlagValue(s: string): (v: string)
    ensures |s| >= 2 ==> s == s[..2] + v
    ensures |s| < 2 ==> v == ""
  {
    if |s| >= 2 then s[2..] else ""
  }

  /** What manejarArgumentos hands back: whether a file is used, the pipe name, and the file name. */
  datatype ClientOptions = ClientOptions(usesFile: bool, pipeName: string, fileName: Option<string>)

  /**
   * The accepted command lines: `-pPIPE` alone, or `-pPIPE` and `-iFILE` in
   * either order. Everything else is refused with ARG_INCORRECTOS.
   */
  function ClientArguments(argv: seq<string>): (r: Result<ClientOptions, int>)
    ensures r.Failure? ==> r.error == ArgIncorrectos
    ensures r.Success? ==> (r.value.usesFile <==> r.value.fileName.Some?)
  {
    if |argv| == 2 then
      if IsFlag(argv[1], 'p') then Success(ClientOptions(false, FlagValue(argv[1]), None))
      else Failure(ArgIncorrectos)
    else if |argv| == 3 then
      if IsFlag(argv[1], 'i') && IsFlag(argv[2], 'p') then
        Success(ClientOptions(true, FlagValue(argv[2]), Some(FlagValue(argv[1]))))
      else if IsFlag(argv[1], 'p') && IsFlag(argv[2], 'i') then
        Success(ClientOptions(true, FlagValue(argv[1]), Some(FlagValue(argv[2]))))
      else Failure(ArgIncorrectos)
    else Failure(ArgIncorrectos)
  }

  /** Only two or three arguments (counting the program name) can be accepted. */
  lemma WrongCountRefused(argv: seq<string>)
    requires |argv| != 2 && |argv| != 3
    ensures ClientArguments(argv) == Failure(ArgIncorrectos)
  {
  }

  /** With a single argument, it is accepted exactly when it is `-p`; no file is used. */
  lemma SinglePipeArgument(argv: seq<string>)
    requires |argv| == 2
    ensures ClientArguments(argv).Success? <==> IsFlag(argv[1], 'p')
    ensures ClientArguments(argv).Success? ==>
              ClientArguments(argv).value == ClientOptions(false, FlagValue(argv[1]), None)
  {
  }

  /**
   * With two arguments: any argument without a leading '-' is refused, a
   * repeated flag is refused, and on success the `-i` value is the file
   * name, the `-p` value the pipe name, and a file is used.
   */
  lemma TwoArguments(argv: seq<string>)
    requires |argv| == 3
    ensures !Dashed(argv[1]) || !Dashed(argv[2]) ==> ClientArguments(argv).Failure?
    ensures CharAt(argv[1], 1) == CharAt(argv[2], 1) ==> ClientArguments(argv).Failure?
    ensures ClientArguments(argv).Success? ==>
              && ClientArguments(argv).value.usesFile
              && (exists k :: 1 <= k < 3 && IsFlag(argv[k], 'i') && ClientArguments(argv).value.fileName == Some(FlagValue(argv[k])))
              && (exists k :: 1 <= k < 3 && IsFlag(argv[k], 'p') && ClientArguments(argv).value.pipeName == FlagValue(argv[k]))
  {
  }

  /**
   * manejarArgumentos: the argument count decides; with two arguments every
   * one must start with '-', then the flags are consumed one by one, each
   * letter at most once.
   */
  method HandleArguments(argv: seq<string>) returns (r: Result<ClientOptions, int>)
    ensures r == ClientArguments(argv)
  {
    if |argv| == 2 {
      if CharAt(argv[1], 0) == '-' && CharAt(argv[1], 1) == 'p' {
        var pipeNom := FlagValue(argv[1]);
        r := Success(ClientOptions(false, pipeNom, None));
      } else {
        r := Failure(ArgIncorrectos);
      }
    } else if |argv| == 3 {
      for i := 1 to |argv|
        invariant forall j :: 1 <= j < i ==> Dashed(argv[j])
      {
        if CharAt(argv[i], 0) != '-' {
          return Failure(ArgIncorrectos);
        }
      }
      r := ConsumeFlags(argv);
    } else {
      r := Failure(ArgIncorrectos);
    }
  }

  /**
   * The flag loop of manejarArgumentos for two dashed arguments: each step
   * looks at the letter after the '-' of argv[1], then shifts argv by one.
   */
  method ConsumeFlags(argv: seq<string>) returns (r: Result<ClientOptions, int>)
    requires |argv| == 3 && Dashed(argv[1]) && Dashed(argv[2])
    ensures r == ClientArguments(argv)
  {
    var argI, argP, usoArchivo := false, false, false;
    var pipeNom: string := "";
    var fileNom: string := "";
    ghost var l1, l2 := CharAt(argv[1], 1), CharAt(argv[2], 1);
    // `shift` counts the argv++ steps; argc is |argv| - shift.
    var shift := 0;
    while |argv| - shift > 1 && CharAt(argv[shift + 1], 0) == '-'
      invariant 0 <= shift <= 2
      invariant usoArchivo == argI
      invariant argI == ((shift >= 1 && l1 == 'i') || (shift >= 2 && l2 == 'i'))
      invariant argP == ((shift >= 1 && l1 == 'p') || (shift >= 2 && l2 == 'p'))
      invariant shift >= 1 ==> l1 == 'i' || l1 == 'p'
      invariant shift >= 2 ==> (l2 == 'i' || l2 == 'p') && l1 != l2
      invariant shift >= 1 && l1 == 'i' ==> fileNom == FlagValue(argv[1])
      invariant shift >= 1 && l1 == 'p' ==> pipeNom == FlagValue(argv[1])
      invariant shift >= 2 && l2 == 'i' ==> fileNom == FlagValue(argv[2])
      invariant shift >= 2 && l2 == 'p' ==> pipeNom == FlagValue(argv[2])
    {
      var arg := argv[shift + 1];
      var letter := CharAt(arg, 1);
      if letter == 'i' {
        if argI {
          return Failure(ArgIncorrectos);
        }
        argI := true;
        usoArchivo := true;
        fileNom := FlagValue(arg);
      } else if letter == 'p' {
        if argP {
          return Failure(ArgIncorrectos);
        }
        argP := true;
        pipeNom := FlagValue(arg);
      } else {
        return Failure(ArgIncorrectos);
      }
      shift := shift + 1;
    }
    r := Success(ClientOptions(usoArchivo, pipeNom, if usoArchivo then Some(fileNom) else None));
  }

  /* ----- Cutting the flag off an argument ----- */

  /** The C string held in a buffer: its characters up to the first NUL, or all of them. */
  function CString(buf: seq<char>): (t: string)
    ensures |t| <= |buf| && t == buf[..|t|] && '\0' !in t
    ensures |t| < |buf| ==> buf[|t|] == '\0'
  {
    if |buf| == 0 || buf[0] == '\0' then []
    else [buf[0]] + CString(buf[1..])
  }

  /** A terminated value reads back as itself, whatever follows the terminator. */
  lemma {:induction false} CStringOfTerminated(v: string, tail: seq<char>)
    requires '\0' !in v
    ensures CString(v + ['\0'] + tail) == v
  {
    if v != [] {
      assert (v + ['\0'] + tail)[1..] == v[1..] + ['\0'] + tail;
      CStringOfTerminated(v[1..], tail);
    }
  }

  /** An unterminated value followed by a non-NUL character reads back longer than itself. */
  lemma {:induction false} StaleTailShowsThrough(v: string, tail: seq<char>)
    requires '\0' !in v && |tail| > 0 && tail[0] != '\0'
    ensures |CString(v + tail)| > |v|
  {
    if v != [] {
      assert (v + tail)[1..] == v[1..] + tail;
      StaleTailShowsThrough(v[1..], tail);
    }
  }

  /**
   * cortarArgumentos as written: copies the characters after the flag to the
   * start of `destino` and writes nothing else, no terminator either. The
   * copy does not depend on what `origen` holds; a C argument never holds a
   * NUL, which is what UnterminatedCutReadsLonger and CutArgumentTerminated
   * require before reading the buffer back.
   */
  method CutArgument(origen: string, destino: array<char>)
    requires destino.Length >= |FlagValue(origen)|
    modifies destino
    ensures destino[..] == FlagValue(origen) + old(destino[..])[|FlagValue(origen)|..]
  {
    ghost var before := destino[..];
    ghost var n := |FlagValue(origen)|;
    var i, j := 2, 0;
    while i < |origen|
      invariant j == i - 2 && j <= n
      invariant i < |origen| ==> j < n
      invariant forall k :: 0 <= k < j ==> destino[k] == origen[k + 2]
      invariant forall k :: j <= k < destino.Length ==> destino[k] == before[k]
      decreases |origen| - i
    {
      destino[j] := origen[i];
      i, j := i + 1, j + 1;
    }
    assert j == n;
    assert forall k :: 0 <= k < n ==> FlagValue(origen)[k] == origen[k + 2];
  }

  /**
   * What the unterminated cut leaves: when the old buffer had no NUL right
   * after where the value ends, the buffer does not read back as the value.
   */
  lemma UnterminatedCutReadsLonger(origen: string, before: seq<char>)
    requires '\0' !in origen && |FlagValue(origen)| < |before| && before[|FlagValue(origen)|] != '\0'
    ensures CString(FlagValue(origen) + before[|FlagValue(origen)|..]) != FlagValue(origen)
  {
    var value := FlagValue(origen);
    assert forall k :: 0 <= k < |value| ==> value[k] == origen[k + 2];
    StaleTailShowsThrough(value, before[|value|..]);
  }

  /**
   * The value read back from a buffer that held longer text: "-pab" cut into
   * a buffer holding "zzzz" reads back as "abzz", not "ab".
   */
  method CutIntoUsedBuffer() returns (pipeNom: string)
    ensures pipeNom == "abzz" && pipeNom != FlagValue("-pab")
  {
    var temp1 := new char[TamString](i => if i < 4 then 'z' else '\0');
    ghost var stale := temp1[..];
    assert stale[2] == 'z' && stale[3] == 'z' && stale[4] == '\0';
    assert "-pab"[2..] == "ab";
    CutArgument("-pab", temp1);
    assert temp1[..] == "ab" + stale[2..];
    assert stale[2..] == "zz" + ['\0'] + stale[5..];
    assert temp1[5..] == stale[5..];
    assert temp1[..] == "abzz" + ['\0'] + temp1[5..];
    CStringOfTerminated("abzz", temp1[5..]);
    pipeNom := CString(temp1[..]);
    assert |pipeNom| != |FlagValue("-pab")|;
  }

  /** cortarArgumentos with the terminator written after the value. */
  method CutArgumentTerminated(origen: string, destino: array<char>)
    requires '\0' !in origen
    requires destino.Length > |FlagValue(origen)|
    modifies destino
    ensures CString(destino[..]) == FlagValue(origen)
  {
    CutArgument(origen, destino);
    var n := |FlagValue(origen)|;
    destino[n] := '\0';
    assert destino[..] == FlagValue(origen) + ['\0'] + destino[n + 1..];
    CStringOfTerminated(FlagValue(origen), destino[n + 1..]);
  }
}
