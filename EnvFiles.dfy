/**
 * The three files scripts/create-platform.js writes after the copy:
 * `.gitignore`, `backend/.env.example` and `frontend/.env.example`. Each is a
 * fixed template with the command-line values spliced in; none of them goes
 * through the rewrite chain.
 */
module EnvFiles {
  import opened Wrappers
  import opened Arguments

  /** Each line followed by a newline, as the templates are laid out. */
  function JoinLines(ls: seq<string>): (r: string)
    ensures ls != [] ==> |r| > 0 && r[|r| - 1] == '\n'
  {
    if ls == [] then [] else ls[0] + "\n" + JoinLines(ls[1..])
  }

  /** The index of the first newline in `s`, or `|s|`. */
  function LineEnd(s: string): (r: nat)
    ensures r <= |s|
    ensures forall i :: 0 <= i < r ==> s[i] != '\n'
    ensures r < |s| ==> s[r] == '\n'
  {
    if s == [] || s[0] == '\n' then 0 else 1 + LineEnd(s[1..])
  }

  /** The lines of a text, the last one ended by a newline or by the end of the text. */
  function SplitLines(s: string): seq<string>
    decreases |s|
  {
    if s == [] then []
    else if LineEnd(s) == |s| then [s]
    else [s[..LineEnd(s)]] + SplitLines(s[LineEnd(s) + 1..])
  }

  predicate NoNewline(ls: seq<string>)
  {
    forall i :: 0 <= i < |ls| ==> '\n' !in ls[i]
  }

  /** No line of a split text holds a newline. */
  lemma {:induction false} SplitLinesNoNewline(s: string)
    ensures NoNewline(SplitLines(s))
    decreases |s|
  {
    if s != [] {
      var e := LineEnd(s);
      assert forall i :: 0 <= i < |s[..e]| ==> s[..e][i] == s[i];
      if e < |s| {
        SplitLinesNoNewline(s[e + 1..]);
        assert SplitLines(s) == [s[..e]] + SplitLines(s[e + 1..]);
      } else {
        assert s[..e] == s;
      }
    }
  }

  lemma {:induction false} LineEndOfLine(l: string, t: string)
    requires '\n' !in l
    ensures LineEnd(l + "\n" + t) == |l|
  {
    if l != [] {
      assert (l + "\n" + t)[1..] == l[1..] + "\n" + t;
      LineEndOfLine(l[1..], t);
    }
  }

  /** Splitting the joined lines gives the lines back. */
  lemma {:induction false} SplitJoin(ls: seq<string>)
    requires NoNewline(ls)
    ensures SplitLines(JoinLines(ls)) == ls
  {
    if ls != [] {
      var t := JoinLines(ls[1..]);
      var s := ls[0] + "\n" + t;
      LineEndOfLine(ls[0], t);
      assert s[..|ls[0]|] == ls[0];
      assert s[|ls[0]| + 1..] == t;
      SplitJoin(ls[1..]);
    }
  }

  /** A newline-terminated text has a newline before its end. */
  lemma LineEndBefore(s: string)
    requires s != [] && s[|s| - 1] == '\n'
    ensures LineEnd(s) < |s|
  {
  }

  /** A text with a newline is its first line followed by the lines after that newline. */
  lemma SplitFirst(s: string, e: nat)
    requires e == LineEnd(s) && e < |s|
    ensures SplitLines(s) == [s[..e]] + SplitLines(s[e + 1..])
  {
  }

  lemma SplitAt(s: string, e: nat)
    requires e < |s| && s[e] == '\n'
    ensures s == s[..e] + "\n" + s[e + 1..]
  {
  }

  /** Joining the lines of a newline-terminated text gives the text back. */
  lemma {:induction false} JoinSplit(s: string)
    requires s == [] || s[|s| - 1] == '\n'
    ensures JoinLines(SplitLines(s)) == s
    decreases |s|
  {
    if s != [] {
      LineEndBefore(s);
      var e := LineEnd(s);
      SplitFirst(s, e);
      SplitAt(s, e);
      var t := s[e + 1..];
      assert t == [] || t[|t| - 1] == '\n';
      JoinSplit(t);
      var ls := [s[..e]] + SplitLines(t);
      assert ls[0] == s[..e] && ls[1..] == SplitLines(t);
    }
  }

  /** The value of the first `key=value` line, as a dotenv reader sees it. */
  function EnvValue(lines: seq<string>, key: string): (r: Option<string>)
    ensures r.Some? ==> exists i :: 0 <= i < |lines| && lines[i] == key + "=" + r.value
  {
    if lines == [] then None
    else
      var k := key + "=";
      if |k| <= |lines[0]| && lines[0][..|k|] == k then
        assert lines[0] == k + lines[0][|k|..];
        Some(lines[0][|k|..])
      else EnvValue(lines[1..], key)
  }

  const GITIGNORE_LINES: seq<string> :=
    ["node_modules", ".next", "dist", ".env", "*.db", "*.db-journal"]

  /** The `.gitignore` written at the top of the new platform: the six ignore patterns, one per line. */
  function Gitignore(): (r: string)
    ensures SplitLines(r) == GITIGNORE_LINES
  {
    GitignoreSingleLines();
    SplitJoin(GITIGNORE_LINES);
    JoinLines(GITIGNORE_LINES)
  }

  lemma GitignoreSingleLines()
    ensures NoNewline(GITIGNORE_LINES)
  {
    assert '\n' !in "node_modules" && '\n' !in ".next" && '\n' !in "dist";
    assert '\n' !in ".env" && '\n' !in "*.db" && '\n' !in "*.db-journal";
  }

  /** A `key=value` line. */
  function Setting(key: string, value: string): string
  {
    key + "=" + value
  }

  // The backend template, block by block as it is laid out: each block but
  // the last ends with a blank line.

  function ServerLines(p: Params): seq<string>
  {
    ["# Server Configuration", Setting("PORT", p.backendPort), Setting("NODE_ENV", "development"), ""]
  }

  function DatabaseLines(p: Params): seq<string>
  {
    ["# Database", Setting("DATABASE_PATH", "./" + p.Lower() + ".db"), ""]
  }

  function JwtLines(): seq<string>
  {
    ["# JWT Secret (change in production)", Setting("JWT_SECRET", "your-secret-key-here-change-in-production"), ""]
  }

  function GoogleLines(p: Params): seq<string>
  {
    [ "# Google OAuth",
      Setting("GOOGLE_CLIENT_ID", "your-google-client-id"),
      Setting("GOOGLE_CLIENT_SECRET", "your-google-client-secret"),
      Setting("GOOGLE_CALLBACK_URL", "http://localhost:" + p.backendPort + "/api/auth/google/callback"),
      "" ]
  }

  function FrontendUrlLines(p: Params): seq<string>
  {
    ["# Frontend URL", Setting("FRONTEND_URL", "http://localhost:" + p.frontendPort), ""]
  }

  function IssuerLines(p: Params): seq<string>
  {
    ["# OAuth Provider Configuration", Setting("OAUTH_ISSUER", "http://localhost:" + p.backendPort)]
  }

  /**
   * The twenty lines of `backend/.env.example`; as long as the values hold no
   * line break, neither does any line.
   */
  function BackendEnvLines(p: Params): (r: seq<string>)
    ensures |r| == 20
    ensures SingleLine(p) ==> NoNewline(r)
  {
    var ls := ServerLines(p) + (DatabaseLines(p) + (JwtLines() + (GoogleLines(p) + (FrontendUrlLines(p) + IssuerLines(p)))));
    if SingleLine(p) then
      BackendEnvSingleLines(p);
      ls
    else ls
  }

  /** `backend/.env.example`: read back, it gives its lines again. */
  function BackendEnv(p: Params): (r: string)
    ensures SingleLine(p) ==> SplitLines(r) == BackendEnvLines(p)
  {
    if SingleLine(p) then
      SplitJoin(BackendEnvLines(p));
      JoinLines(BackendEnvLines(p))
    else JoinLines(BackendEnvLines(p))
  }

  /** `frontend/.env.example`: exactly one line pointing the frontend at the backend port. */
  function FrontendEnv(p: Params): (r: string)
    ensures r == "NEXT_PUBLIC_API_URL=http://localhost:" + p.backendPort + "\n"
  {
    var line := Setting("NEXT_PUBLIC_API_URL", "http://localhost:" + p.backendPort);
    FrontendLine(p.backendPort);
    assert JoinLines([line]) == line + "\n" + JoinLines([]);
    JoinLines([line])
  }

  lemma FrontendLine(port: string)
    ensures Setting("NEXT_PUBLIC_API_URL", "http://localhost:" + port) == "NEXT_PUBLIC_API_URL=http://localhost:" + port
  {
    var k, h := "NEXT_PUBLIC_API_URL", "http://localhost:";
    assert k + "=" + h == "NEXT_PUBLIC_API_URL=http://localhost:";
    assert k + "=" + (h + port) == (k + "=" + h) + port;
  }

  /** A line `key=v` answers for `key`. */
  lemma EnvValueHere(line: string, rest: seq<string>, key: string, v: string)
    requires line == key + "=" + v
    ensures EnvValue([line] + rest, key) == Some(v)
  {
    var k := key + "=";
    assert line[..|k|] == k;
    assert line[|k|..] == v;
  }

  /** A line whose `d`-th character is not that of `key` does not answer for it. */
  lemma EnvValueSkip(line: string, rest: seq<string>, key: string, d: nat)
    requires d < |key| && (d >= |line| || line[d] != key[d])
    ensures EnvValue([line] + rest, key) == EnvValue(rest, key)
  {
    var k := key + "=";
    assert [line] + rest != [] && ([line] + rest)[1..] == rest;
  }

  /** The frontend file sets NEXT_PUBLIC_API_URL to the backend's address. */
  lemma FrontendEnvValue(p: Params)
    requires '\n' !in p.backendPort
    ensures EnvValue(SplitLines(FrontendEnv(p)), "NEXT_PUBLIC_API_URL") == Some("http://localhost:" + p.backendPort)
  {
    var v := "http://localhost:" + p.backendPort;
    var line := Setting("NEXT_PUBLIC_API_URL", v);
    assert '\n' !in line;
    SplitJoin([line]);
    EnvValueHere(line, [], "NEXT_PUBLIC_API_URL", v);
    assert [line] + [] == [line];
  }

  /** No line of `ls` starts with `c`. */
  predicate NoLead(ls: seq<string>, c: char)
  {
    forall i :: 0 <= i < |ls| ==> ls[i] == [] || ls[i][0] != c
  }

  /** Every non-empty line of `ls` starts with a character of `cs`. */
  predicate LeadsIn(ls: seq<string>, cs: set<char>)
  {
    forall i :: 0 <= i < |ls| ==> ls[i] == [] || ls[i][0] in cs
  }

  lemma NoLeadOutside(ls: seq<string>, cs: set<char>, c: char)
    requires LeadsIn(ls, cs) && c !in cs
    ensures NoLead(ls, c)
  {
  }

  lemma SettingLead(key: string, value: string)
    requires |key| > 0
    ensures |Setting(key, value)| > 0 && Setting(key, value)[0] == key[0]
  {
  }

  // The first characters of the lines of each block.

  lemma ServerLeads(p: Params)
    ensures LeadsIn(ServerLines(p), {'#', 'P', 'N'})
  {
    SettingLead("PORT", p.backendPort);
    SettingLead("NODE_ENV", "development");
  }

  lemma DatabaseLeads(p: Params)
    ensures LeadsIn(DatabaseLines(p), {'#', 'D'})
  {
    SettingLead("DATABASE_PATH", "./" + p.Lower() + ".db");
  }

  lemma JwtLeads()
    ensures LeadsIn(JwtLines(), {'#', 'J'})
  {
    SettingLead("JWT_SECRET", "your-secret-key-here-change-in-production");
  }

  lemma GoogleLeads(p: Params)
    ensures LeadsIn(GoogleLines(p), {'#', 'G'})
  {
    SettingLead("GOOGLE_CLIENT_ID", "your-google-client-id");
    SettingLead("GOOGLE_CLIENT_SECRET", "your-google-client-secret");
    SettingLead("GOOGLE_CALLBACK_URL", "http://localhost:" + p.backendPort + "/api/auth/google/callback");
  }

  lemma FrontendUrlLeads(p: Params)
    ensures LeadsIn(FrontendUrlLines(p), {'#', 'F'})
  {
    SettingLead("FRONTEND_URL", "http://localhost:" + p.frontendPort);
  }

  /** Lines none of which starts like `key` leave the answer to the lines after them. */
  lemma {:induction false} EnvValueAfter(a: seq<string>, b: seq<string>, key: string)
    requires |key| > 0 && NoLead(a, key[0])
    ensures EnvValue(a + b, key) == EnvValue(b, key)
  {
    if a != [] {
      assert a + b == [a[0]] + (a[1..] + b);
      EnvValueSkip(a[0], a[1..] + b, key, 0);
      assert NoLead(a[1..], key[0]) by {
        assert forall i :: 0 <= i < |a| - 1 ==> a[1..][i] == a[i + 1];
      }
      EnvValueAfter(a[1..], b, key);
    } else {
      assert a + b == b;
    }
  }

  /** Lines that answer for `key` keep that answer whatever follows them. */
  lemma {:induction false} EnvValueBefore(a: seq<string>, b: seq<string>, key: string)
    requires EnvValue(a, key).Some?
    ensures EnvValue(a + b, key) == EnvValue(a, key)
  {
    assert a + b == [a[0]] + (a[1..] + b);
    assert a == [a[0]] + a[1..];
    var k := key + "=";
    if !(|k| <= |a[0]| && a[0][..|k|] == k) {
      EnvValueBefore(a[1..], b, key);
    }
  }

  /** The backend template's lines set PORT to the backend port. */
  lemma BackendEnvPort(p: Params)
    ensures EnvValue(BackendEnvLines(p), "PORT") == Some(p.backendPort)
  {
    var s := ServerLines(p);
    assert s == ["# Server Configuration"] + ([Setting("PORT", p.backendPort)] + s[2..]);
    EnvValueHere(Setting("PORT", p.backendPort), s[2..], "PORT", p.backendPort);
    EnvValueSkip("# Server Configuration", [Setting("PORT", p.backendPort)] + s[2..], "PORT", 0);
    EnvValueBefore(s, BackendEnvLines(p)[|s|..], "PORT");
    assert BackendEnvLines(p) == s + BackendEnvLines(p)[|s|..];
  }

  /** The backend template's lines name the database after the lower-case platform name. */
  lemma BackendEnvDatabase(p: Params)
    ensures EnvValue(BackendEnvLines(p), "DATABASE_PATH") == Some("./" + p.Lower() + ".db")
  {
    var v := "./" + p.Lower() + ".db";
    var d := DatabaseLines(p);
    var tail := JwtLines() + (GoogleLines(p) + (FrontendUrlLines(p) + IssuerLines(p)));
    assert d == ["# Database"] + ([Setting("DATABASE_PATH", v)] + [""]);
    EnvValueHere(Setting("DATABASE_PATH", v), [""], "DATABASE_PATH", v);
    EnvValueSkip("# Database", [Setting("DATABASE_PATH", v)] + [""], "DATABASE_PATH", 0);
    EnvValueBefore(d, tail, "DATABASE_PATH");
    ServerLeads(p);
    NoLeadOutside(ServerLines(p), {'#', 'P', 'N'}, 'D');
    EnvValueAfter(ServerLines(p), d + tail, "DATABASE_PATH");
  }

  /** The Google block answers for GOOGLE_CALLBACK_URL with its third setting. */
  lemma GoogleCallback(p: Params)
    ensures EnvValue(GoogleLines(p), "GOOGLE_CALLBACK_URL") ==
      Some("http://localhost:" + p.backendPort + "/api/auth/google/callback")
  {
    var key := "GOOGLE_CALLBACK_URL";
    var v := "http://localhost:" + p.backendPort + "/api/auth/google/callback";
    var idLine := Setting("GOOGLE_CLIENT_ID", "your-google-client-id");
    var secretLine := Setting("GOOGLE_CLIENT_SECRET", "your-google-client-secret");
    var t := [Setting(key, v)] + [""];
    assert GoogleLines(p) == ["# Google OAuth"] + ([idLine] + ([secretLine] + t));
    EnvValueHere(Setting(key, v), [""], key, v);
    assert idLine[8] == 'L' && secretLine[8] == 'L' && key[8] == 'A';
    EnvValueSkip(secretLine, t, key, 8);
    EnvValueSkip(idLine, [secretLine] + t, key, 8);
    EnvValueSkip("# Google OAuth", [idLine] + ([secretLine] + t), key, 0);
  }

  /** The backend template's lines send the Google sign-in back to the backend's own callback route. */
  lemma BackendEnvCallbackUrl(p: Params)
    ensures EnvValue(BackendEnvLines(p), "GOOGLE_CALLBACK_URL") ==
      Some("http://localhost:" + p.backendPort + "/api/auth/google/callback")
  {
    var key := "GOOGLE_CALLBACK_URL";
    var g := GoogleLines(p);
    var t2 := g + (FrontendUrlLines(p) + IssuerLines(p));
    var t1 := JwtLines() + t2;
    var t0 := DatabaseLines(p) + t1;
    GoogleCallback(p);
    EnvValueBefore(g, FrontendUrlLines(p) + IssuerLines(p), key);
    ServerLeads(p);
    DatabaseLeads(p);
    JwtLeads();
    NoLeadOutside(ServerLines(p), {'#', 'P', 'N'}, 'G');
    NoLeadOutside(DatabaseLines(p), {'#', 'D'}, 'G');
    NoLeadOutside(JwtLines(), {'#', 'J'}, 'G');
    EnvValueAfter(JwtLines(), t2, key);
    EnvValueAfter(DatabaseLines(p), t1, key);
    EnvValueAfter(ServerLines(p), t0, key);
  }

  /** The backend template's lines point FRONTEND_URL at the frontend port. */
  lemma BackendEnvFrontendUrl(p: Params)
    ensures EnvValue(BackendEnvLines(p), "FRONTEND_URL") == Some("http://localhost:" + p.frontendPort)
  {
    var v := "http://localhost:" + p.frontendPort;
    var f := FrontendUrlLines(p);
    var t3 := f + IssuerLines(p);
    var t2 := GoogleLines(p) + t3;
    var t1 := JwtLines() + t2;
    var t0 := DatabaseLines(p) + t1;
    assert f == ["# Frontend URL"] + ([Setting("FRONTEND_URL", v)] + [""]);
    EnvValueHere(Setting("FRONTEND_URL", v), [""], "FRONTEND_URL", v);
    EnvValueSkip("# Frontend URL", [Setting("FRONTEND_URL", v)] + [""], "FRONTEND_URL", 0);
    EnvValueBefore(f, IssuerLines(p), "FRONTEND_URL");
    ServerLeads(p);
    DatabaseLeads(p);
    JwtLeads();
    GoogleLeads(p);
    NoLeadOutside(ServerLines(p), {'#', 'P', 'N'}, 'F');
    NoLeadOutside(DatabaseLines(p), {'#', 'D'}, 'F');
    NoLeadOutside(JwtLines(), {'#', 'J'}, 'F');
    NoLeadOutside(GoogleLines(p), {'#', 'G'}, 'F');
    EnvValueAfter(GoogleLines(p), t3, "FRONTEND_URL");
    EnvValueAfter(JwtLines(), t2, "FRONTEND_URL");
    EnvValueAfter(DatabaseLines(p), t1, "FRONTEND_URL");
    EnvValueAfter(ServerLines(p), t0, "FRONTEND_URL");
  }

  /** The backend template's issuer is the backend's own address. */
  lemma BackendEnvIssuer(p: Params)
    ensures EnvValue(BackendEnvLines(p), "OAUTH_ISSUER") == Some("http://localhost:" + p.backendPort)
  {
    var v := "http://localhost:" + p.backendPort;
    var o := IssuerLines(p);
    var t3 := FrontendUrlLines(p) + o;
    var t2 := GoogleLines(p) + t3;
    var t1 := JwtLines() + t2;
    var t0 := DatabaseLines(p) + t1;
    assert o == ["# OAuth Provider Configuration"] + ([Setting("OAUTH_ISSUER", v)] + []);
    EnvValueHere(Setting("OAUTH_ISSUER", v), [], "OAUTH_ISSUER", v);
    EnvValueSkip("# OAuth Provider Configuration", [Setting("OAUTH_ISSUER", v)] + [], "OAUTH_ISSUER", 0);
    ServerLeads(p);
    DatabaseLeads(p);
    JwtLeads();
    GoogleLeads(p);
    FrontendUrlLeads(p);
    NoLeadOutside(ServerLines(p), {'#', 'P', 'N'}, 'O');
    NoLeadOutside(DatabaseLines(p), {'#', 'D'}, 'O');
    NoLeadOutside(JwtLines(), {'#', 'J'}, 'O');
    NoLeadOutside(GoogleLines(p), {'#', 'G'}, 'O');
    NoLeadOutside(FrontendUrlLines(p), {'#', 'F'}, 'O');
    EnvValueAfter(FrontendUrlLines(p), o, "OAUTH_ISSUER");
    EnvValueAfter(GoogleLines(p), t3, "OAUTH_ISSUER");
    EnvValueAfter(JwtLines(), t2, "OAUTH_ISSUER");
    EnvValueAfter(DatabaseLines(p), t1, "OAUTH_ISSUER");
    EnvValueAfter(ServerLines(p), t0, "OAUTH_ISSUER");
  }

  /**
   * The written backend file, split back into lines, gives the five values
   * above, as long as no value holds a line break.
   */
  lemma BackendEnvFileValues(p: Params)
    requires SingleLine(p)
    ensures EnvValue(SplitLines(BackendEnv(p)), "PORT") == Some(p.backendPort)
    ensures EnvValue(SplitLines(BackendEnv(p)), "DATABASE_PATH") == Some("./" + p.Lower() + ".db")
    ensures EnvValue(SplitLines(BackendEnv(p)), "GOOGLE_CALLBACK_URL") ==
            Some("http://localhost:" + p.backendPort + "/api/auth/google/callback")
    ensures EnvValue(SplitLines(BackendEnv(p)), "FRONTEND_URL") == Some("http://localhost:" + p.frontendPort)
    ensures EnvValue(SplitLines(BackendEnv(p)), "OAUTH_ISSUER") == Some("http://localhost:" + p.backendPort)
  {
    BackendEnvPort(p);
    BackendEnvDatabase(p);
    BackendEnvCallbackUrl(p);
    BackendEnvFrontendUrl(p);
    BackendEnvIssuer(p);
  }

  /** Values without a line break, so that every template line stays one line. */
  predicate SingleLine(p: Params)
  {
    '\n' !in p.backendPort && '\n' !in p.frontendPort && '\n' !in p.platformName
  }

  lemma NoNewlineAppend(a: seq<string>, b: seq<string>)
    requires NoNewline(a) && NoNewline(b)
    ensures NoNewline(a + b)
  {
    assert forall i :: |a| <= i < |a| + |b| ==> (a + b)[i] == b[i - |a|];
  }

  // The fixed text of the backend template holds no line break. Each group is
  // a lemma of its own: together in one proof they are far more expensive.

  lemma CommentLinesA()
    ensures '\n' !in "# Server Configuration"
    ensures '\n' !in "# Database"
    ensures '\n' !in "# Google OAuth"
  {
  }

  lemma CommentLinesB()
    ensures '\n' !in "# JWT Secret (change in production)"
    ensures '\n' !in "# Frontend URL"
  {
  }

  lemma CommentLinesC()
    ensures '\n' !in "# OAuth Provider Configuration"
    ensures '\n' !in "development"
  {
  }

  lemma FixedValuesA()
    ensures '\n' !in "your-secret-key-here-change-in-production"
    ensures '\n' !in "your-google-client-id"
  {
  }

  lemma FixedValuesB()
    ensures '\n' !in "your-google-client-secret"
    ensures '\n' !in "/api/auth/google/callback"
  {
  }

  lemma FixedKeys()
    ensures '\n' !in "NODE_ENV" && '\n' !in "JWT_SECRET"
    ensures '\n' !in "GOOGLE_CLIENT_ID" && '\n' !in "GOOGLE_CLIENT_SECRET"
  {
  }

  /** With single-line values, no block of the backend template holds a line break. */
  lemma BackendEnvSingleLines(p: Params)
    requires SingleLine(p)
    ensures NoNewline(ServerLines(p) + (DatabaseLines(p) + (JwtLines() + (GoogleLines(p) + (FrontendUrlLines(p) + IssuerLines(p))))))
  {
    FixedKeys();
    CommentLinesA();
    CommentLinesB();
    CommentLinesC();
    FixedValuesA();
    FixedValuesB();
    assert '\n' !in p.Lower();
    var t3 := FrontendUrlLines(p) + IssuerLines(p);
    var t2 := GoogleLines(p) + t3;
    var t1 := JwtLines() + t2;
    NoNewlineAppend(FrontendUrlLines(p), IssuerLines(p));
    NoNewlineAppend(GoogleLines(p), t3);
    NoNewlineAppend(JwtLines(), t2);
    NoNewlineAppend(DatabaseLines(p), t1);
    NoNewlineAppend(ServerLines(p), DatabaseLines(p) + t1);
  }
}
