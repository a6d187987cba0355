# Sistema de Cadastro de Usuários: a verified model

The system is an in-memory user registration store. It accepts a new user (an
e-mail and a password) only when three checks pass, in a fixed order:

1. the e-mail matches the pattern `^[a-zA-Z0-9._%+-]+@[a-zA-Z0-9.-]+\.[a-zA-Z]{2,}$`;
2. the password has at least six characters, one of which is a digit;
3. no stored user has the same e-mail.

Each failed check returns its own message and leaves the store as it was. A user
that passes all three is appended to an insertion-ordered history. The store
also looks users up by exact e-mail, returns its history and counts its users.

The project has three modules:

- `Validators` (`validators.dfy`) models the two validators as total functions.
  - The regular expression is restated as a plain decision procedure,
    `MatchesPrefix`. No character class of the pattern contains '@', so the
    first '@' is the only one. No top-level character is '.', so the last '.'
    is the split before the top-level part.
  - A reference predicate, `PatternMatch`, says that the string splits as
    local part, '@', domain, '.', top-level part. Two lemmas prove that the
    decision procedure and the reference predicate agree.
  - Python's `re.match` with a pattern ending in `$` also succeeds when a single
    '\n' follows the match at the very end of the input. The model includes
    this case: `ValidarEmail` matches the input without that one final newline,
    and `ValidarEmailIff` states the resulting acceptance condition exactly.
- `UserSystem` (`user_system.dfy`) models the store.
  - A user is an immutable `Usuario` value.
  - `SistemaCadastro` is a class whose field `usuarios: seq<Usuario>` is
    reassigned by `CadastrarUsuario`.
  - Its invariant `Valid()` says that e-mails are unique and that every stored
    user passes both validators. Every operation that changes state preserves
    it.
  - `BuscarUsuario` is the source's linear scan with an early return. It is
    proved against the pure specification function `Find`.
- `UserSystemScenarios` (`user_system_scenarios.dfy`) replays the unit tests.
  - Each scenario is first stated for all inputs that meet its premises. It
    builds a fresh system, calls the store's methods, and states what the
    caller observes.
  - The tests' own literals are then instances of these scenarios.

## Model

| member | source | states |
|---|---|---|
| Validators.ValidarEmail | src/validators.py:9-21 | the anchored pattern decided on the input minus one optional final '\n'; an accepted e-mail has at least six characters; its exact meaning against the pattern is ValidarEmailIff |
| Validators.ValidarSenha | src/validators.py:24-42 | the password is accepted iff it has at least 6 characters and some character is an ASCII digit '0'..'9' |
| Validators.HasDigit | src/validators.py:39-40 | true iff some character of the string is an ASCII digit '0'..'9' |
| Validators.RejectedWithoutDigit | src/validators.py:39-40 | a password with no ASCII digit '0'..'9' is rejected whatever its length |
| Validators.MatchesPatternSound | src/validators.py:20-21 | every string the decision procedure accepts splits into a valid local part, '@', a valid domain, '.', and a top-level part of two or more letters |
| Validators.MatchesPatternComplete | src/validators.py:20-21 | every string that splits that way is accepted by the decision procedure |
| Validators.NoMatchEndingInNewline | src/validators.py:20-21 | no string ending in '\n' is matched by the anchored pattern itself |
| Validators.ValidarEmailIff | src/validators.py:9-21 | `validar_email` holds iff the pattern matches the whole input, or the whole input but one final '\n' |
| Validators.AcceptedHasOneAt | src/validators.py:20-21 | an accepted e-mail contains exactly one '@', and it is neither the first nor the last character |
| Validators.AcceptedEndsWithTopLevel | src/validators.py:20-21 | an accepted e-mail ends, apart from an optional final '\n', in its last '.' followed by two or more letters |
| Validators.ComposeAccepted | src/validators.py:20-21 | any local part, '@', domain, '.', and top-level part built from the allowed characters is accepted |
| Validators.RejectedWithoutAt | src/validators.py:20-21 | a string without '@' is rejected |
| Validators.RejectedStartingWithAt | src/validators.py:20-21 | a string starting with '@' (empty local part) is rejected |
| Validators.RejectedWithoutDot | src/validators.py:20-21 | a string without '.' is rejected |
| Validators.AcceptsPlainAddress | tests/test_user_system.py:26 | "usuario@exemplo.com" is accepted |
| Validators.AcceptsMultiDotDomain | tests/test_user_system.py:27 | "teste123@dominio.com.br" is accepted |
| Validators.AcceptsDottedLocalPart | tests/test_user_system.py:28 | "nome.sobrenome@empresa.co.uk" is accepted |
| Validators.RejectsMissingAt | tests/test_user_system.py:36 | "email_sem_arroba.com" is rejected |
| Validators.RejectsEmptyLocalPart | tests/test_user_system.py:37 | "@sem_usuario.com" is rejected |
| Validators.RejectsMissingTopLevel | tests/test_user_system.py:38 | "usuario@sem_dominio" is rejected |
| Validators.RejectsEmpty | tests/test_user_system.py:39 | the empty string is rejected |
| Validators.RejectsBareWord | tests/test_user_system.py:99 | "email_invalido" is rejected |
| Validators.AcceptsPasswordExamples | tests/test_user_system.py:47-49 | "senha123", "abc123" and "minhasenha9" are accepted |
| Validators.RejectsShortPasswords | tests/test_user_system.py:57-63 | "abc12" and the empty password are rejected |
| Validators.RejectsPasswordWithoutDigit | tests/test_user_system.py:60 | "senhasemnumero" is rejected |
| UserSystem.Usuario | src/user_system.py:9-21 | a registered user: the e-mail and the password given at registration, as an immutable value |
| UserSystem.Find | src/user_system.py:74-77 | the specification of the lookup: no result iff no stored user has the e-mail, and a result always has that e-mail and is stored |
| UserSystem.FindFirst | src/user_system.py:74-77 | the lookup returns the first stored user with that e-mail, in insertion order |
| UserSystem.FindUnique | src/user_system.py:64-77 | when e-mails are unique, the lookup returns the one user with that e-mail |
| UserSystem.AnexarPreservaInvariante | src/user_system.py:47-60 | appending a user who passes both validators and whose e-mail is new keeps e-mails unique and every stored user valid |
| UserSystem.SistemaCadastro.constructor | src/user_system.py:30-32 | a new system holds no users and satisfies the invariant |
| UserSystem.SistemaCadastro.CadastrarUsuario | src/user_system.py:34-62 | succeeds iff the e-mail is valid, the password is valid and the e-mail is not stored; the message follows that check order; on success exactly `Usuario(email, senha)` is appended; otherwise the store is unchanged; the invariant is preserved |
| UserSystem.SistemaCadastro.BuscarUsuario | src/user_system.py:64-77 | the scan returns exactly what `Find` specifies (the first user with the e-mail, or none iff there is none), without validating the e-mail and without changing state |
| UserSystem.SistemaCadastro.ObterHistorico | src/user_system.py:79-86 | returns the stored users in insertion order; the history has unique, valid e-mails and valid passwords |
| UserSystem.SistemaCadastro.ContarUsuarios | src/user_system.py:88-95 | returns the number of stored users |
| UserSystemScenarios.FreshSystemIsEmpty | src/user_system.py:30-32 | a fresh system counts 0 users and has an empty history |
| UserSystemScenarios.RegisterOnce | tests/test_user_system.py:83-90 | a valid registration into a fresh system succeeds with the success message, and the count becomes 1 |
| UserSystemScenarios.RegisterWithInvalidEmail | tests/test_user_system.py:99-106 | an invalid e-mail is refused with the e-mail message whatever the password, and the count stays 0 |
| UserSystemScenarios.RegisterWithInvalidPassword | tests/test_user_system.py:115-122 | a valid e-mail with an invalid password is refused with the password message, and the count stays 0 |
| UserSystemScenarios.RegisterThenFind | tests/test_user_system.py:132-139 | after registering a user, looking up its e-mail returns exactly that user |
| UserSystemScenarios.FindInFreshSystem | tests/test_user_system.py:149-152 | looking up any e-mail in a fresh system returns nothing |
| UserSystemScenarios.RegisterThree | tests/test_user_system.py:162-176 | three valid registrations with distinct e-mails give exactly those three users in registration order |
| UserSystemScenarios.RegisterTwice | tests/test_user_system.py:184-194 | registering the same valid e-mail twice refuses the second with the duplicate message, and the count stays 1 |
| UserSystemScenarios.TestValidRegistration | tests/test_user_system.py:83-90 | CT05 with its literals: success, the success message, count 1 |
| UserSystemScenarios.TestInvalidEmail | tests/test_user_system.py:99-106 | CT06 with its literals: refused with the e-mail message, count 0 |
| UserSystemScenarios.TestInvalidPassword | tests/test_user_system.py:115-122 | CT07 with its literals: refused with the password message, count 0 |
| UserSystemScenarios.TestFindExisting | tests/test_user_system.py:132-139 | CT08 with its literals: the user is found and has the e-mail searched for |
| UserSystemScenarios.TestFindMissing | tests/test_user_system.py:149-152 | CT09 with its literals: nothing is found |
| UserSystemScenarios.TestHistory | tests/test_user_system.py:162-176 | CT10 with its literals: the history holds three users whose e-mails are user1, user2 and user3, in that order |
| UserSystemScenarios.TestDuplicate | tests/test_user_system.py:184-194 | the duplicate test with its literals: the second registration is refused as a duplicate, count 1 |

## Left out

- ValidarSenha: the digit test covers only ASCII '0'..'9'. Python's `str.isdigit` also accepts other Unicode digits, such as superscripts and Arabic-Indic digits. A password whose only digit is such a character, for example "abcdef٣", is rejected by the model but accepted by the source.
- HasDigit: counts only ASCII '0'..'9' as digits, where `char.isdigit()` accepts every Unicode digit; the reason is the same as for ValidarSenha.
- RejectedWithoutDigit: its premise is "no ASCII digit", not the source's "no character for which `isdigit` holds", so it does not cover passwords whose only digits are non-ASCII.
- The general `re` engine: only the one pattern of `validar_email` is modelled, as a hand-written predicate.
- Non-string arguments: the source is dynamically typed. `validar_email` raises a `TypeError` from `re.match` on a non-string. `validar_senha` accepts any sized iterable of one-character strings, such as a list of characters. So `cadastrar_usuario` can store a user whose password is such a list, and `buscar_usuario` compares any value with `==` without raising. The model takes strings only.
- Object identity: `Usuario` objects are mutable and shared between the store and the list returned by `obter_historico` (a shallow copy). The model treats users as immutable values and the history as a value sequence, so it does not capture mutation through a returned object.
- Direct access to the `usuarios` attribute from outside the class: Python permits it, but the model reaches the store only through its methods, which keep the invariant.
- exemplo_uso.py is not part of this model: it is a console demonstration that only prints the results of calls to the store.
- The unit-test harness itself (set-up, runner) is not modelled. Its assertions appear as the scenario methods above. Where a test checks only a substring of a message or membership in the history, the scenario states the exact message or the exact order.
