/**
 * The in-memory registration store: an append-only, insertion-ordered list
 * of users, guarded by the two validators and by a duplicate check.
 */
module UserSystem {
  import opened Validators

  datatype Option<T> = None | Some(value: T)

  /** A registered user: an e-mail and a password, never changed afterwards. */
  datatype Usuario = Usuario(email: string, senha: string)

  const MsgEmailInvalido: string := "E-mail inválido. Formato correto: exemplo@dominio.com"
  const MsgSenhaInvalida: string := "Senha inválida. Deve ter ao menos 6 caracteres e 1 número."
  const MsgEmailDuplicado: string := "E-mail já cadastrado no sistema."
  const MsgSucesso: string := "Usuário cadastrado com sucesso!"

  // ---------------------------------------------------------------------------
  // Specification of the stored list
  // ---------------------------------------------------------------------------

  /** Some stored user has exactly this e-mail (case-sensitive, no trimming). */
  predicate EmailCadastrado(us: seq<Usuario>, email: string) {
    exists i :: 0 <= i < |us| && us[i].email == email
  }

  /** No two stored users share an e-mail. */
  predicate EmailsUnicos(us: seq<Usuario>) {
    forall i, j :: 0 <= i < j < |us| ==> us[i].email != us[j].email
  }

  /** What every successful registration guarantees of the stored list. */
  predicate Invariante(us: seq<Usuario>) {
    EmailsUnicos(us) &&
    forall i :: 0 <= i < |us| ==> ValidarEmail(us[i].email) && ValidarSenha(us[i].senha)
  }

  /** The first stored user with exactly this e-mail, scanning in insertion order. */
  function Find(us: seq<Usuario>, email: string): (r: Option<Usuario>)
    ensures r.None? <==> !EmailCadastrado(us, email)
    ensures r.Some? ==> r.value.email == email && r.value in us
  {
    if |us| == 0 then None
    else if us[0].email == email then Some(us[0])
    else
      var r := Find(us[1..], email);
      assert forall i :: 1 <= i < |us| ==> us[i] == us[1..][i - 1];
      r
  }

  /** The user `Find` returns is the one with no match before it. */
  lemma {:induction false} FindFirst(us: seq<Usuario>, email: string, k: nat)
    requires k < |us| && us[k].email == email
    requires forall j :: 0 <= j < k ==> us[j].email != email
    ensures Find(us, email) == Some(us[k])
  {
    if k > 0 {
      assert forall j :: 0 <= j < k - 1 ==> us[1..][j] == us[j + 1];
      FindFirst(us[1..], email, k - 1);
    }
  }

  /** With unique e-mails, `Find` returns the only user with that e-mail. */
  lemma FindUnique(us: seq<Usuario>, email: string, k: nat)
    requires EmailsUnicos(us)
    requires k < |us| && us[k].email == email
    ensures Find(us, email) == Some(us[k])
  {
    FindFirst(us, email, k);
  }

  /** Appending a valid user whose e-mail is new keeps the invariant. */
  lemma AnexarPreservaInvariante(us: seq<Usuario>, u: Usuario)
    requires Invariante(us)
    requires ValidarEmail(u.email) && ValidarSenha(u.senha)
    requires !EmailCadastrado(us, u.email)
    ensures Invariante(us + [u])
  {
    var us' := us + [u];
    forall i, j | 0 <= i < j < |us'| ensures us'[i].email != us'[j].email {
      if j == |us| {
        assert us'[i] == us[i];
      }
    }
  }

  // ---------------------------------------------------------------------------
  // The store
  // ---------------------------------------------------------------------------

  class SistemaCadastro {
    /** The registered users, in insertion order. */
    var usuarios: seq<Usuario>

    ghost predicate Valid()
      reads this
    {
      Invariante(usuarios)
    }

    /** A new system holds no users. */
    constructor ()
      ensures Valid()
      ensures usuarios == []
    {
      usuarios := [];
    }

    /**
     * Checks, in this order, the e-mail format, the password strength and
     * that the e-mail is not yet stored; appends the user only when all
     * three pass, and otherwise leaves the store as it was.
     */
    method CadastrarUsuario(email: string, senha: string) returns (sucesso: bool, mensagem: string)
      requires Valid()
      modifies this
      ensures Valid()
      ensures sucesso <==>
        ValidarEmail(email) && ValidarSenha(senha) && !EmailCadastrado(old(usuarios), email)
      ensures !ValidarEmail(email) ==> mensagem == MsgEmailInvalido
      ensures ValidarEmail(email) && !ValidarSenha(senha) ==> mensagem == MsgSenhaInvalida
      ensures ValidarEmail(email) && ValidarSenha(senha) && EmailCadastrado(old(usuarios), email) ==>
        mensagem == MsgEmailDuplicado
      ensures sucesso ==> mensagem == MsgSucesso && usuarios == old(usuarios) + [Usuario(email, senha)]
      ensures !sucesso ==> usuarios == old(usuarios)
    {
      if !ValidarEmail(email) {
        return false, MsgEmailInvalido;
      }
      if !ValidarSenha(senha) {
        return false, MsgSenhaInvalida;
      }
      var existente := BuscarUsuario(email);
      if existente.Some? {
        return false, MsgEmailDuplicado;
      }
      var novo := Usuario(email, senha);
      AnexarPreservaInvariante(usuarios, novo);
      usuarios := usuarios + [novo];
      return true, MsgSucesso;
    }

    /**
     * Scans the users in insertion order and returns the first whose e-mail
     * equals `email` exactly; `email` itself is not validated.
     */
    method BuscarUsuario(email: string) returns (r: Option<Usuario>)
      ensures r == Find(usuarios, email)
      ensures r.None? <==> !EmailCadastrado(usuarios, email)
      ensures r.Some? ==> r.value.email == email && r.value in usuarios
    {
      var i := 0;
      while i < |usuarios|
        invariant 0 <= i <= |usuarios|
        invariant forall j :: 0 <= j < i ==> usuarios[j].email != email
      {
        if usuarios[i].email == email {
          FindFirst(usuarios, email, i);
          return Some(usuarios[i]);
        }
        i := i + 1;
      }
      return None;
    }

    /** The registered users in insertion order, as a value the caller cannot alter. */
    method ObterHistorico() returns (h: seq<Usuario>)
      requires Valid()
      ensures h == usuarios
      ensures Invariante(h)
    {
      h := usuarios;
    }

    /** The number of registered users. */
    method ContarUsuarios() returns (n: nat)
      ensures n == |usuarios|
    {
      n := |usuarios|;
    }
  }
}
