/**
 * The registration scenarios of the unit tests, replayed against the
 * contracts of `SistemaCadastro`. Each scenario is first stated for any
 * inputs that satisfy its premises, building a fresh system and returning
 * what a caller observes; the tests' own literals are then instances.
 */
module UserSystemScenarios {
  import opened Validators
  import opened UserSystem

  /** A fresh system is empty: no users counted, an empty history. */
  method FreshSystemIsEmpty() returns (n: nat, h: seq<Usuario>)
    ensures n == 0 && h == []
  {
    var sistema := new SistemaCadastro();
    n := sistema.ContarUsuarios();
    h := sistema.ObterHistorico();
  }

  /** A valid registration into a fresh system succeeds and the count becomes 1. */
  method RegisterOnce(email: string, senha: string) returns (sucesso: bool, mensagem: string, n: nat)
    requires ValidarEmail(email) && ValidarSenha(senha)
    ensures sucesso && mensagem == MsgSucesso && n == 1
  {
    var sistema := new SistemaCadastro();
    sucesso, mensagem := sistema.CadastrarUsuario(email, senha);
    n := sistema.ContarUsuarios();
  }

  /** An invalid e-mail is refused with the e-mail message whatever the password, and nothing is stored. */
  method RegisterWithInvalidEmail(email: string, senha: string) returns (sucesso: bool, mensagem: string, n: nat)
    requires !ValidarEmail(email)
    ensures !sucesso && mensagem == MsgEmailInvalido && n == 0
  {
    var sistema := new SistemaCadastro();
    sucesso, mensagem := sistema.CadastrarUsuario(email, senha);
    n := sistema.ContarUsuarios();
  }

  /** A valid e-mail with an invalid password is refused with the password message, and nothing is stored. */
  method RegisterWithInvalidPassword(email: string, senha: string) returns (sucesso: bool, mensagem: string, n: nat)
    requires ValidarEmail(email) && !ValidarSenha(senha)
    ensures !sucesso && mensagem == MsgSenhaInvalida && n == 0
  {
    var sistema := new SistemaCadastro();
    sucesso, mensagem := sistema.CadastrarUsuario(email, senha);
    n := sistema.ContarUsuarios();
  }

  /** After one registration the user is found by its e-mail. */
  method RegisterThenFind(email: string, senha: string) returns (found: Option<Usuario>)
    requires ValidarEmail(email) && ValidarSenha(senha)
    ensures found == Some(Usuario(email, senha))
  {
    var sistema := new SistemaCadastro();
    var _, _ := sistema.CadastrarUsuario(email, senha);
    found := sistema.BuscarUsuario(email);
  }

  /** A fresh system finds nothing, whatever the e-mail, valid or not. */
  method FindInFreshSystem(email: string) returns (found: Option<Usuario>)
    ensures found == None
  {
    var sistema := new SistemaCadastro();
    found := sistema.BuscarUsuario(email);
  }

  /** Three registrations of distinct valid e-mails appear in the history in registration order. */
  method RegisterThree(e1: string, p1: string, e2: string, p2: string, e3: string, p3: string)
    returns (h: seq<Usuario>)
    requires ValidarEmail(e1) && ValidarEmail(e2) && ValidarEmail(e3)
    requires ValidarSenha(p1) && ValidarSenha(p2) && ValidarSenha(p3)
    requires e1 != e2 && e1 != e3 && e2 != e3
    ensures h == [Usuario(e1, p1), Usuario(e2, p2), Usuario(e3, p3)]
  {
    var sistema := new SistemaCadastro();
    var _, _ := sistema.CadastrarUsuario(e1, p1);
    assert !EmailCadastrado(sistema.usuarios, e2) by { assert sistema.usuarios == [Usuario(e1, p1)]; }
    var _, _ := sistema.CadastrarUsuario(e2, p2);
    assert !EmailCadastrado(sistema.usuarios, e3) by {
      assert sistema.usuarios == [Usuario(e1, p1), Usuario(e2, p2)];
    }
    var _, _ := sistema.CadastrarUsuario(e3, p3);
    h := sistema.ObterHistorico();
  }

  /** Registering the same e-mail twice: the second is refused as a duplicate and the count stays 1. */
  method RegisterTwice(email: string, p1: string, p2: string) returns (sucesso: bool, mensagem: string, n: nat)
    requires ValidarEmail(email) && ValidarSenha(p1) && ValidarSenha(p2)
    ensures !sucesso && mensagem == MsgEmailDuplicado && n == 1
  {
    var sistema := new SistemaCadastro();
    var _, _ := sistema.CadastrarUsuario(email, p1);
    assert sistema.usuarios[0].email == email;
    sucesso, mensagem := sistema.CadastrarUsuario(email, p2);
    n := sistema.ContarUsuarios();
  }

  // ---------------------------------------------------------------------------
  // The unit tests' own inputs
  // ---------------------------------------------------------------------------

  /** CT05. */
  method TestValidRegistration() returns (sucesso: bool, mensagem: string, n: nat)
    ensures sucesso && mensagem == MsgSucesso && n == 1
  {
    ValidEmailTeste();
    AcceptsPasswordExamples();
    sucesso, mensagem, n := RegisterOnce("teste@exemplo.com", "senha123");
  }

  /** CT06. */
  method TestInvalidEmail() returns (sucesso: bool, mensagem: string, n: nat)
    ensures !sucesso && mensagem == MsgEmailInvalido && n == 0
  {
    RejectsBareWord();
    sucesso, mensagem, n := RegisterWithInvalidEmail("email_invalido", "senha123");
  }

  /** CT07. */
  method TestInvalidPassword() returns (sucesso: bool, mensagem: string, n: nat)
    ensures !sucesso && mensagem == MsgSenhaInvalida && n == 0
  {
    ValidEmailTeste();
    RejectsShortPasswords();
    sucesso, mensagem, n := RegisterWithInvalidPassword("teste@exemplo.com", "abc12");
  }

  /** CT08. */
  method TestFindExisting() returns (found: Option<Usuario>)
    ensures found.Some? && found.value.email == "usuario@teste.com"
  {
    assert "usuario@teste.com" == Compose("usuario", "teste", "com");
    ComposeAccepted("usuario", "teste", "com");
    AcceptsPasswordExamples();
    found := RegisterThenFind("usuario@teste.com", "senha123");
  }

  /** CT09. */
  method TestFindMissing() returns (found: Option<Usuario>)
    ensures found.None?
  {
    found := FindInFreshSystem("naoexiste@teste.com");
  }

  /** CT10. */
  method TestHistory() returns (h: seq<Usuario>)
    ensures |h| == 3
    ensures [h[0].email, h[1].email, h[2].email] == ["user1@teste.com", "user2@teste.com", "user3@teste.com"]
  {
    ValidHistoryEmails();
    AcceptsPasswordExamples();
    AcceptsOtherTestPasswords();
    h := RegisterThree("user1@teste.com", "senha123", "user2@teste.com", "senha456", "user3@teste.com", "senha789");
  }

  /** The duplicate-registration test. */
  method TestDuplicate() returns (sucesso: bool, mensagem: string, n: nat)
    ensures !sucesso && mensagem == MsgEmailDuplicado && n == 1
  {
    ValidDuplicateEmail();
    AcceptsPasswordExamples();
    AcceptsOtherTestPasswords();
    sucesso, mensagem, n := RegisterTwice("duplicado@teste.com", "senha123", "outrasenha456");
  }

  /** The e-mail of the duplicate-registration test is accepted. */
  lemma ValidDuplicateEmail()
    ensures ValidarEmail("duplicado@teste.com")
  {
    assert "duplicado@teste.com" == Compose("duplicado", "teste", "com");
    ComposeAccepted("duplicado", "teste", "com");
  }

  /** The passwords of CT10 and of the duplicate test not already covered by CT03. */
  lemma AcceptsOtherTestPasswords()
    ensures ValidarSenha("senha456") && ValidarSenha("senha789") && ValidarSenha("outrasenha456")
  {
    assert IsAsciiDigit("senha456"[5]);
    assert IsAsciiDigit("senha789"[5]);
    assert IsAsciiDigit("outrasenha456"[10]);
  }

  lemma ValidEmailTeste()
    ensures ValidarEmail("teste@exemplo.com")
  {
    assert "teste@exemplo.com" == Compose("teste", "exemplo", "com");
    ComposeAccepted("teste", "exemplo", "com");
  }

  /**
   * The e-mails of CT10 are accepted and distinct. Each address is proved in a
   * lemma of its own, which keeps every proof obligation small.
   */
  lemma ValidHistoryEmails()
    ensures ValidarEmail("user1@teste.com") && ValidarEmail("user2@teste.com") && ValidarEmail("user3@teste.com")
    ensures "user1@teste.com" != "user2@teste.com" && "user1@teste.com" != "user3@teste.com"
    ensures "user2@teste.com" != "user3@teste.com"
  {
    DistinctHistoryEmails();
    ValidEmailUser1();
    ValidEmailUser2();
    ValidEmailUser3();
  }

  lemma ValidEmailUser1()
    ensures ValidarEmail("user1@teste.com")
  {
    assert "user1@teste.com" == Compose("user1", "teste", "com");
    ComposeAccepted("user1", "teste", "com");
  }

  lemma ValidEmailUser2()
    ensures ValidarEmail("user2@teste.com")
  {
    assert "user2@teste.com" == Compose("user2", "teste", "com");
    ComposeAccepted("user2", "teste", "com");
  }

  lemma ValidEmailUser3()
    ensures ValidarEmail("user3@teste.com")
  {
    assert "user3@teste.com" == Compose("user3", "teste", "com");
    ComposeAccepted("user3", "teste", "com");
  }

  lemma DistinctHistoryEmails()
    ensures "user1@teste.com" != "user2@teste.com" && "user1@teste.com" != "user3@teste.com"
    ensures "user2@teste.com" != "user3@teste.com"
  {
    assert "user1@teste.com"[4] != "user2@teste.com"[4];
    assert "user1@teste.com"[4] != "user3@teste.com"[4];
    assert "user2@teste.com"[4] != "user3@teste.com"[4];
  }
}
