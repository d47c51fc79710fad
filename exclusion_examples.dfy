/** The exclusion filters on the file names the scanner's documentation and
    behaviour single out. Each example takes its name as a parameter spelled
    in short pieces (`"UNINS" + "T.EXE"` is `UNINST.EXE`), so that the
    lower-cased name is assembled piece by piece. */
module ExclusionExamples {
  import opened Text
  import opened Exclusion

  /** Lower-casing a text piece by piece. */
  lemma LowerJoin(a: string, b: string, la: string, lb: string)
    requires Lower(a) == la && Lower(b) == lb
    ensures Lower(a + b) == la + lb
  {
    LowerConcat(a, b);
  }

  lemma LowerUnins() ensures Lower("UNINS") == "unins" { }
  lemma LowerTExe() ensures Lower("T.EXE") == "t.exe" { }
  lemma LowerUpdat() ensures Lower("Updat") == "updat" { }
  lemma LowerErExe() ensures Lower("er.exe") == "er.exe" { }
  lemma LowerSetup() ensures Lower("setup") == "setup" { }
  lemma LowerDotExe() ensures Lower(".exe") == ".exe" { }
  lemma LowerMy() ensures Lower("my") == "my" { }

  /** `UNINST.EXE` is excluded by name, whatever its case. */
  lemma UninstallerExcluded(name: string)
    requires name == "UNINS" + "T.EXE"
    ensures ExcludedByName(name)
  {
    LowerUnins();
    LowerTExe();
    LowerJoin("UNINS", "T.EXE", "unins", "t.exe");
    assert Lower(name)[..6] == "uninst";
    NameMatchExcludes(name, 0);
  }

  /** `Updater.exe` is excluded by `updat`. */
  lemma UpdaterExcluded(name: string)
    requires name == "Updat" + "er.exe"
    ensures ExcludedByName(name)
  {
    LowerUpdat();
    LowerErExe();
    LowerJoin("Updat", "er.exe", "updat", "er.exe");
    assert Lower(name)[..5] == "updat";
    assert NamePatterns[5] == Literal("updat");
    NameMatchExcludes(name, 5);
  }

  /** `setup` between word boundaries excludes a name. */
  lemma SetupWordExcluded(name: string)
    requires name == "setup" + ".exe"
    ensures ExcludedByName(name)
  {
    LowerSetup();
    LowerDotExe();
    LowerJoin("setup", ".exe", "setup", ".exe");
    var s := Lower(name);
    assert s[0..5] == "setup" && s[5] == '.';
    assert !IsWordChar(s[5]);
    assert WordAt(s, "setup", 0);
    assert NamePatterns[3] == Word("setup");
    NameMatchExcludes(name, 3);
  }

  /** In `mysetup.exe`, `setup` follows a letter, so it is not a whole word. */
  lemma MySetupHasNoSetupWord(s: string)
    requires s == "my" + "setup" + ".exe"
    ensures !ContainsWordFrom(s, "setup", 0)
  {
    if ContainsWordFrom(s, "setup", 0) {
      var j := ContainsWordFromWitness(s, "setup", 0);
      assert false;
    }
  }

  /** Every plain alternative of the name filter contains one of `a`, `n`,
      `r` and `d`. */
  lemma NoNameAlternativeWithout(s: string)
    requires 'a' !in s && 'n' !in s && 'r' !in s && 'd' !in s
    requires !ContainsWordFrom(s, "setup", 0)
    ensures !MatchesAny(s, NamePatterns)
  {
    MissingCharNotContained(s, "uninst", 1);
    MissingCharNotContained(s, "uninstall", 1);
    MissingCharNotContained(s, "installer", 1);
    MissingCharNotContained(s, "install", 1);
    MissingCharNotContained(s, "updat", 2);
    MissingCharNotContained(s, "patch", 1);
    MissingCharNotContained(s, "update", 2);
    MissingCharNotContained(s, "repair", 0);
    MissingCharNotContained(s, "remove", 0);
    MissingCharNotContained(s, "autorun", 0);
    MissingCharNotContained(s, "readme", 0);
    MissingCharNotContained(s, "vcredist", 2);
    MissingCharNotContained(s, "redistributable", 0);
    MissingCharNotContained(s, "dxsetup", 0);
    MissingCharNotContained(s, "directx", 0);
    MissingCharNotContained(s, "crash", 1);
    MissingCharNotContained(s, "crashreport", 1);
    MissingCharNotContained(s, "crashreporter", 1);
    MissingCharNotContained(s, "unitcrash", 1);
    MissingCharNotContained(s, "launcher_helper", 1);
    MissingCharNotContained(s, "steamwebhelper", 3);
    MissingCharNotContained(s, "steamservice", 3);
    NameAlternatives(s);
  }

  /** `setup` needs word boundaries, and no other alternative occurs in
      `mysetup.exe`, so the name is not excluded. */
  lemma MySetupNotExcluded(name: string)
    requires name == "my" + "setup" + ".exe"
    ensures !ExcludedByName(name)
  {
    MySetupIsLowerCase(name);
    MySetupLacksLetters(name);
    MySetupHasNoSetupWord(name);
    NoNameAlternativeWithout(name);
  }

  lemma MySetupIsLowerCase(name: string)
    requires name == "my" + "setup" + ".exe"
    ensures Lower(name) == name
  {
    LowerMy();
    LowerSetup();
    LowerDotExe();
    LowerJoin("my", "setup", "my", "setup");
    LowerJoin("my" + "setup", ".exe", "my" + "setup", ".exe");
  }

  lemma MySetupLacksLetters(name: string)
    requires name == "my" + "setup" + ".exe"
    ensures 'a' !in name && 'n' !in name && 'r' !in name && 'd' !in name
  {
  }
}
