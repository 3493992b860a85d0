/**
 * The command line of scripts/create-platform.js: five positional values, and
 * the lower- and upper-case forms of the platform name derived from the first.
 */
module Arguments {
  import opened Wrappers

  /** The five values, in command-line order. */
  datatype Params = Params(
    platformName: string,
    backendPort: string,
    frontendPort: string,
    primaryColor: string,
    secondaryColor: string)
  {
    function Lower(): string { LowerCase(platformName) }
    function Upper(): string { UpperCase(platformName) }
  }

  datatype UsageError = UsageError

  /**
   * The guard: fewer than five values is a usage error; any values after the
   * fifth are ignored.
   */
  function ParseArgs(args: seq<string>): (r: Result<Params, UsageError>)
    ensures r.Failure? <==> |args| < 5
    ensures r.Success? ==>
      r.value == Params(args[0], args[1], args[2], args[3], args[4])
  {
    if |args| < 5 then Failure(UsageError)
    else Success(Params(args[0], args[1], args[2], args[3], args[4]))
  }

  predicate IsAsciiUpper(c: char) { 'A' <= c <= 'Z' }
  predicate IsAsciiLower(c: char) { 'a' <= c <= 'z' }

  function LowerChar(c: char): char
  {
    if IsAsciiUpper(c) then (c as int + 32) as char else c
  }

  function UpperChar(c: char): char
  {
    if IsAsciiLower(c) then (c as int - 32) as char else c
  }

  /** `toLowerCase` on ASCII letters; every other character is kept. */
  function LowerCase(s: string): (r: string)
    ensures |r| == |s|
    ensures forall i :: 0 <= i < |s| ==> !IsAsciiUpper(r[i])
    ensures forall i :: 0 <= i < |s| ==> UpperChar(r[i]) == UpperChar(s[i])
  {
    seq(|s|, i requires 0 <= i < |s| => LowerChar(s[i]))
  }

  /** `toUpperCase` on ASCII letters; every other character is kept. */
  function UpperCase(s: string): (r: string)
    ensures |r| == |s|
    ensures forall i :: 0 <= i < |s| ==> !IsAsciiLower(r[i])
    ensures forall i :: 0 <= i < |s| ==> LowerChar(r[i]) == LowerChar(s[i])
  {
    seq(|s|, i requires 0 <= i < |s| => UpperChar(s[i]))
  }
}
