/** The name of the downloaded receipt file: "recibo_", at most the first 20
    characters of the payer's name with spaces turned into '_', "_", a
    timestamp and ".pdf". */
module Download {
  import opened Text

  const MaxNameChars: nat := 20

  /** `nome[:20].replace(' ', '_')`. */
  function NameFragment(nome: string): (r: string)
    ensures |r| == Min(|nome|, MaxNameChars) <= MaxNameChars
    ensures ' ' !in r
    ensures forall i :: 0 <= i < |r| ==> r[i] == (if nome[i] == ' ' then '_' else nome[i])
  {
    ReplaceChar(nome[..Min(|nome|, MaxNameChars)], ' ', '_')
  }

  /** The download name; the clock reading `%Y%m%d%H%M%S` is the parameter
      `stamp`. It reads "recibo_", the fragment, '_', the stamp and ".pdf". */
  function DownloadName(nome: string, stamp: string): (r: string)
    ensures |r| == |NameFragment(nome)| + |stamp| + 12
    ensures r[..7] == "recibo_"
    ensures r[7..7 + |NameFragment(nome)|] == NameFragment(nome)
    ensures r[7 + |NameFragment(nome)|] == '_'
    ensures r[8 + |NameFragment(nome)|..|r| - 4] == stamp
    ensures r[|r| - 4..] == ".pdf"
  {
    var f := NameFragment(nome);
    var r := "recibo_" + f + "_" + stamp + ".pdf";
    assert r == "recibo_" + (f + ("_" + (stamp + ".pdf")));
    r
  }

  /** The name has a space exactly when the timestamp has one: the fixed
      parts and the fragment never do. */
  lemma DownloadNameNoSpace(nome: string, stamp: string)
    ensures ' ' !in DownloadName(nome, stamp) <==> ' ' !in stamp
  {
    var f := NameFragment(nome);
    var r := DownloadName(nome, stamp);
    if ' ' in stamp {
      var j :| 0 <= j < |stamp| && stamp[j] == ' ';
      assert r[8 + |f| + j] == stamp[j];
    } else {
      forall i | 0 <= i < |r| ensures r[i] != ' ' {
        if i < 7 {
          assert r[i] == r[..7][i];
        } else if i < 7 + |f| {
          assert r[i] == r[7..7 + |f|][i - 7] == f[i - 7];
        } else if 8 + |f| <= i < |r| - 4 {
          assert r[i] == r[8 + |f|..|r| - 4][i - 8 - |f|] == stamp[i - 8 - |f|];
        } else if i >= |r| - 4 {
          assert r[i] == r[|r| - 4..][i - (|r| - 4)];
        }
      }
    }
  }
}
