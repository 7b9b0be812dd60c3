# PokemonMap: the OSADA file system, deadlock detection, the map and its collections

The repository is a multi-process game. A server keeps the game's files in an OSADA volume, a
FAT-like store mapped into memory; each map process hands pokemon out to trainers, schedules
them and breaks deadlocks; both use a small linked list and a hash table. This project models
those cores in Dafny and proves what they rest on. Identifiers follow the Spanish names of the
source; `dafny verify dfyconfig.toml` checks everything.

| files | what they model |
|---|---|
| `OsadaDisco`, `OsadaContenido`, `OsadaNombres` | the disk as a value: chains, layout, what readers see, names, look-up and the directory tree |
| `OsadaServidor`, `OsadaSesion` | the server's functions over its arrays, in place, and its loop of requests |
| `OsadaPasos`, `OsadaFallas` | each request as a relation between two moments, what every run keeps and exactly when it stops, and a volume and request for each way it can |
| `Reduccion`, `Deadlock` | the resource reduction over matrices and the pruning of starving trainers |
| `Mapa`, `MapaDeadlock` | the map's objects and queues step by step, detection and resolution on them, and the loop of events |
| `MapaPasos`, `MapaTurnos` | each event as a relation between two moments of a map, what every run keeps, and the order of turns |
| `Lista`, `Planificacion` | the linked list node by node, the distance planner built on it, and round robin |
| `Diccionario` | the chained hash table node by node |
| `Estructuras` | the records and sequence helpers they share |

## How the model is built

* **The volume.** `Osada` has the bitmap, the allocation table, the data blocks and the file
  table as arrays. `Consistente` ties them to a ghost layout that says where each block is: free,
  the k-th of some file, or lost (marked but on no chain). Every method keeps `Consistente`,
  whatever its arguments.
* **Runs of requests.** `Paso(x, q, r, y)` says what request q does to the volume, reply
  included; `Atender` is proved to do that, and `AtenderTodos` a `Corrida` of such steps. Three
  properties are followed over every run, each on its own: the disk is well formed (nothing lost,
  every size covered by its chain), every live entry is found by look-up, and the live entries
  form a tree. For each one the requests that break it are described before the request is made
  (`Pierde`, `Oculta`, `Desarma`), and it holds up to a moment of a run exactly when none of them
  came earlier. What readers see is stated file by file, with no condition on the others.
* **Deadlock detection.** The specification speaks of sets: a set of trainers is stuck when no
  member can be satisfied even after everybody else has released, and held up when each member
  holds something another one asks for. The loops with restarts are proved to compute the greatest
  of each, and `ReporteSii` says what that comes to on the queues, free pokemon and holdings of a map:
  the report is right and complete.
* **The map.** Each locked section is one step; which sockets have a broken connection, `rotos`, is
  any set, a new one for each step; and the loser of a battle is any trainer of the list that an
  earlier detection left. `Valid` is the
  invariant: one place per trainer, counts equal to queues, nobody waiting where a pokemon is free,
  pokemon only of this map. `total` is the multiset of pokemon free or held; no event changes it.
  `Paso(ss, x, e, y)` says what event e does to the moment x; `Ocurrir` is proved to do that, and
  `CorrerMapa` a `Corrida` of such steps. `Suerte` is what becomes of each other trainer
  when somebody leaves: taken out of its queue, it is dropped if its connection is broken and
  otherwise ready with one pokemon more; if nobody is dropped the outcome is that of `DarTodos`.
  `ListaBien` is what makes that list safe to fight over later: its trainers stay blocked and
  waited for until it is emptied.
* **The collections.** Each method is proved against the sequence (or the insertion-ordered
  association list) its nodes hold.

## What the code does that one might not expect

These are proved as they are, each with its exact condition or with a concrete case.

* Growing a file that has no block never sets its first block: every block reserved is lost
  (`TruncarBienFormadoSii`, `TruncarPierde`). When blocks run out a resize empties the file.
* A resize to just below a multiple of 2^38 bytes counts 0 blocks and stores a size near 2^32
  (`DesbordaTamSii`, `TruncarDesborda`).
* On a full disk a create replies 0 and leaves a file with no block; the test for a negative
  first block is on an unsigned field.
* A write that fails for lack of blocks takes every free block into the chain, although no
  reader sees a change.
* Growing a file exposes what its last block held past the old end.
* Look-up ignores the deleted state: deleted entries are still found, so a rename onto one is
  refused, and an operation on its path reaches the dead slot.
* A create does not check that its parent is a live directory: it is accepted under a regular file
  (`CrearBajoArchivo`) and under a deleted directory, and when it reuses the slot of that very
  directory the new one is its own parent (`CrearEnSiMismo`, `CrearArbolSii`).
* A rename into a directory that does not exist is accepted and moves the entry to the root,
  where it may be hidden by a live one (`RenombrarSinDestinoOculta`); a rename of a directory below
  itself is accepted and cuts it off the tree (`RenombrarBajoSiMismo`, `MoverConservaArbolSii`).
* A resize whose size has bit 31 set is done but returns a negative int, so the client is told it
  failed (`TruncarResponde`, `TruncarNiega`).
* The hash table compares hash codes, never keys, and does not lower its count when the data
  removed is null.
* A trainer stuck alone, waiting for what only it holds, is not reported; nor are two with the same
  symbol that wait for each other, since detection tells trainers apart by it (`ReporteSii`).

## Model

| member | source | states |
|---|---|---|
| OsadaDisco.CadenaUnica | Proc-Pokedex-Server/pokedex-server.c:255-294 | the allocation table and the first block determine a chain: there is no second way to follow it |
| OsadaDisco.PlanoUnico | Proc-Pokedex-Server/pokedex-server.c:189-294 | a consistent disk has one layout: the chains and the set of lost blocks do not depend on how it is described |
| OsadaDisco.BienFormadoSii | Proc-Pokedex-Server/pokedex-server.c:121-294 | a disk is well formed (some layout is healthy) exactly when the layout at hand is healthy |
| OsadaDisco.CadenasDisjuntas | Proc-Pokedex-Server/pokedex-server.c:189-294 | chains are acyclic and pairwise disjoint: a block is at one position of one chain |
| OsadaDisco.OcupadoSii | Proc-Pokedex-Server/pokedex-server.c:121-129 | on a healthy disk a bit is set exactly when its block is on some chain |
| OsadaDisco.PredecesorUnico | Proc-Pokedex-Server/pokedex-server.c:209-230 | the only table entry that holds a block number is the true predecessor of the block, so the whole-table scan hits that one |
| OsadaDisco.EnlaceAlUltimo | Proc-Pokedex-Server/pokedex-server.c:216-226 | before the last block of a chain is freed its link is null and exactly one entry points at it |
| OsadaDisco.CambiarEntrada | Proc-Pokedex-Server/pokedex-server.c:485-545 | changing an entry without touching its chain keeps every table consistent |
| OsadaDisco.ReservarEnCadena | Proc-Pokedex-Server/pokedex-server.c:408-421 | reserving a free block after the last one of a chain keeps the tables consistent and loses nothing |
| OsadaDisco.ReservarPrimero | Proc-Pokedex-Server/pokedex-server.c:480-486 | reserving the first block of a file that had none keeps the tables consistent |
| OsadaDisco.ReservarSuelto | Proc-Pokedex-Server/pokedex-server.c:408-421 | a block reserved after nothing, or after a lost one, is on no chain: the tables stay consistent but the block is lost |
| OsadaDisco.LiberarUltimo | Proc-Pokedex-Server/pokedex-server.c:209-230 | unlinking and unmarking the last block of a chain makes the chain one shorter and keeps the tables consistent |
| OsadaContenido.MismoContenido | Proc-Pokedex-Server/pokedex-server.c:444-456 | a file whose chain and blocks were not touched reads the same |
| OsadaContenido.ContenidoEscrito | Proc-Pokedex-Server/pokedex-server.c:458-507 | what is read after a write is the old contents with the new bytes laid over at the offset |
| OsadaContenido.EscribirCabeza | Proc-Pokedex-Server/pokedex-server.c:423-442 | storing a block after its tail was written completes the write over the whole chain, byte by byte |
| OsadaContenido.EscrituraVista | Proc-Pokedex-Server/pokedex-server.c:458-507 | readers of a file its chain covers see a successful write as exactly the splice at the offset, and a failed one not at all; every other file reads as before, whatever the state of the rest |
| OsadaContenido.CambioDeTamVisto | Proc-Pokedex-Server/pokedex-server.c:509-545 | a resize keeps the bytes the two sizes share, if the chain covered the old size; a larger size exposes what the last block still held and then zeros; no condition on other files |
| OsadaContenido.PerderBloque | Proc-Pokedex-Server/pokedex-server.c:529-539 | growing a file with no blocks loses one more block at each turn, and changes no chain and no byte of one |
| OsadaContenido.LiberarPropio | Proc-Pokedex-Server/pokedex-server.c:518-528 | freeing the last block of a file changes no other file and returns exactly one block to the free set |
| OsadaServidor.Osada.constructor | Proc-Pokedex-Server/pokedex-server.c:918-960 | mounts a volume with a consistent layout |
| OsadaServidor.Osada.MarcarBloque | Proc-Pokedex-Server/pokedex-server.c:121-129 | sets or clears one bit of the bitmap and no other |
| OsadaServidor.Osada.GuardarBloque | Proc-Pokedex-Server/pokedex-server.c:131-136 | stores one block and marks it |
| OsadaServidor.Osada.ObtenerBloqueSgte | Proc-Pokedex-Server/pokedex-server.c:189-195 | the link of a block, with the null link read as -1 |
| OsadaServidor.Osada.ObtenerUltimoBloque | Proc-Pokedex-Server/pokedex-server.c:197-207 | the last block of the chain of a file, or -1; the walk ends because chains are acyclic |
| OsadaServidor.Osada.ObtenerBloques | Proc-Pokedex-Server/pokedex-server.c:255-294 | the chain of a file, in order, and its length |
| OsadaServidor.Osada.EncontrarBloqueLibre | Proc-Pokedex-Server/pokedex-server.c:397-406 | the lowest free block, and -1 exactly when none is free |
| OsadaServidor.Osada.ReservarNuevoBloque | Proc-Pokedex-Server/pokedex-server.c:408-421 | takes the lowest free block, marks, links and zeroes it; with none free nothing changes |
| OsadaServidor.Osada.LiberarBloque | Proc-Pokedex-Server/pokedex-server.c:209-230 | clears the bit; with the flag, the first entry that points at the block takes over its link |
| OsadaServidor.Osada.SiguienteOReservado | Proc-Pokedex-Server/pokedex-server.c:431-435 | the next block of the chain, reserved when the chain ends there |
| OsadaServidor.Osada.GuardarDesdeBloque | Proc-Pokedex-Server/pokedex-server.c:423-442 | writes along the chain; it succeeds exactly when chain and free blocks reach the last byte, and a failure leaves every byte as it was while taking every free block |
| OsadaServidor.Osada.GuardarCola | Proc-Pokedex-Server/pokedex-server.c:431-439 | the recursive tail of a write, from the next block on |
| OsadaServidor.Osada.GuardarResto | Proc-Pokedex-Server/pokedex-server.c:436-439 | the write on from the next block, seen from before that block was reserved |
| OsadaServidor.Osada.BloqueParaEscribir | Proc-Pokedex-Server/pokedex-server.c:464-491 | the block the offset falls in, reserved at the end of the chain or as the first one; -1 exactly when it cannot be reached |
| OsadaServidor.Osada.Actualizar | Proc-Pokedex-Server/pokedex-server.c:458-507 | a write succeeds exactly when the file is regular, the offset is past neither size nor chain, and the blocks suffice; its effect on chain, bytes and size; when only the blocks fail it has taken every free one, and any other refusal leaves the disk as it was |
| OsadaServidor.Osada.LiberarFinal | Proc-Pokedex-Server/pokedex-server.c:519-528 | one turn of the shrinking loop |
| OsadaServidor.Osada.Encoger | Proc-Pokedex-Server/pokedex-server.c:518-528 | the shrinking loop leaves the first blocks of the chain and frees the rest |
| OsadaServidor.Osada.AgregarBloque | Proc-Pokedex-Server/pokedex-server.c:531-533 | one turn of the growing loop: a zeroed block at the end of the chain, or a lost one when there is no chain |
| OsadaServidor.Osada.Crecer | Proc-Pokedex-Server/pokedex-server.c:530-539 | the growing loop reaches the size wanted exactly when the free blocks suffice |
| OsadaServidor.Osada.Truncar | Proc-Pokedex-Server/pokedex-server.c:509-545 | a resize in every case: not regular, shrunk, grown, out of blocks (the file ends empty, its blocks freed) and grown from no blocks; free and chain blocks add up; the count of blocks is an int, the size stored 32 bits, the size returned an int |
| OsadaServidor.Osada.ConcatenarBloques | Proc-Pokedex-Server/pokedex-server.c:444-456 | the blocks of a file laid end to end |
| OsadaServidor.Osada.Leer | Proc-Pokedex-Server/pokedex-server.c:706-739 | a read returns exactly the slice of the contents asked for, cut at the end of the file, as long as the blocks of this file reach that far |
| OsadaServidor.Osada.SonNombresIguales | Proc-Pokedex-Server/pokedex-server.c:155-167 | two names are equal when they agree on their first 17 bytes up to a terminator |
| OsadaServidor.Osada.BuscarIndice | Proc-Pokedex-Server/pokedex-server.c:177-187 | the lowest slot with a name and parent, live or deleted |
| OsadaServidor.Osada.ObtenerArchivo | Proc-Pokedex-Server/pokedex-server.c:296-328 | the slot a path resolves to, or a negative |
| OsadaServidor.Osada.ObtenerDirectorioPadre | Proc-Pokedex-Server/pokedex-server.c:330-362 | the directory a path is in, or a negative |
| OsadaServidor.Osada.NombrarArchivo | Proc-Pokedex-Server/pokedex-server.c:143-153 | a name of up to 17 bytes is stored so that it reads back as itself, whatever the buffer held |
| OsadaServidor.Osada.BorrarArchivo | Proc-Pokedex-Server/pokedex-server.c:232-253 | refuses exactly bad slots and directories with live children; otherwise frees every block and marks the slot deleted, keeping name and parent |
| OsadaServidor.Osada.BuscarHueco | Proc-Pokedex-Server/pokedex-server.c:553-560 | the scan for a free slot: finds the lowest deleted one, and reports an existing live entry of that name |
| OsadaServidor.Osada.CrearArchivo | Proc-Pokedex-Server/pokedex-server.c:547-582 | each reply by its own condition and the new entry in the lowest deleted slot; on a full disk it still replies 0 and leaves a file with no block |
| OsadaServidor.Osada.Renombrar | Proc-Pokedex-Server/pokedex-server.c:868-910 | each reply by its own condition and, on success, the same entry under the new name and parent |
| OsadaNombres.TextoDeNombreEscrito | Proc-Pokedex-Server/pokedex-server.c:143-153 | writing a name and reading it back gives the name |
| OsadaNombres.NombresDistintos | Proc-Pokedex-Server/pokedex-server.c:155-167 | names that differ within 17 bytes are told apart |
| OsadaNombres.BuscarHallaVivosSii | Proc-Pokedex-Server/pokedex-server.c:177-187 | look-up finds every live entry exactly when no lower slot, live or dead, has the same name and parent |
| OsadaNombres.ResolverPorPadre | Proc-Pokedex-Server/pokedex-server.c:296-362 | a path resolves to its last component in its parent directory |
| OsadaNombres.ResolverRutaDe | Proc-Pokedex-Server/pokedex-server.c:296-328 | round trip: the path read off the parents of a live entry resolves to that entry |
| OsadaNombres.CrearSinSombra | Proc-Pokedex-Server/pokedex-server.c:553-580 | creating in the lowest deleted slot leaves every live entry findable |
| OsadaNombres.CrearPadresSii | Proc-Pokedex-Server/pokedex-server.c:547-582 | after a create in slot k, every parent is a live directory exactly when the parent given was one or is k itself and a directory is made; the code checks neither |
| OsadaNombres.CrearArbolSii | Proc-Pokedex-Server/pokedex-server.c:547-582 | a create keeps the entries a tree exactly when the parent given was a live directory, slot reuse included |
| OsadaNombres.BorrarSinSombra | Proc-Pokedex-Server/pokedex-server.c:232-253 | deleting leaves every live entry findable |
| OsadaNombres.BorradoSigueHallado | Proc-Pokedex-Server/pokedex-server.c:177-187 | a deleted entry is still found under its name until its slot is reused |
| OsadaNombres.BorrarConservaArbolSii | Proc-Pokedex-Server/pokedex-server.c:232-253 | deleting keeps the tree exactly when the entry has no live children |
| OsadaNombres.RenombrarSinSombraSii | Proc-Pokedex-Server/pokedex-server.c:868-905 | a rename leaves every live entry findable exactly when it clashes with no other slot |
| OsadaNombres.SinChoqueSiNoSeHalla | Proc-Pokedex-Server/pokedex-server.c:888-893 | a new name that look-up does not find clashes with nothing |
| OsadaNombres.MoverConservaArbolSii | Proc-Pokedex-Server/pokedex-server.c:896-898 | moving a live entry keeps the tree exactly when the new parent is a live directory that is not below it |
| OsadaPasos.EscribirVisto | Proc-Pokedex-Server/pokedex-server.c:458-507 | what readers see of a write: the splice on success, nothing on failure; every other file reads as before |
| OsadaPasos.TruncarVisto | Proc-Pokedex-Server/pokedex-server.c:509-545 | what readers see of a resize: shared bytes kept, every other file as before, and nothing left when the blocks ran out |
| OsadaPasos.EscribirMide | Proc-Pokedex-Server/pokedex-server.c:458-507 | a write of at least one byte, in bytes: done exactly when the file is regular, the offset is past neither size nor chain, and chain and free blocks reach the end; it then takes no block more than it needs |
| OsadaPasos.BloquesJustos | Proc-Pokedex-Server/pokedex-server.c:517 | the count of blocks of a size is the least that holds it, for every size whose count fits an int |
| OsadaPasos.TruncarMide | Proc-Pokedex-Server/pokedex-server.c:509-545 | a resize of a file with blocks, in bytes: done exactly when its blocks and the free ones hold the size; then the size is the one asked for and the chain has as many blocks as it takes and not one more, and otherwise the file ends empty |
| OsadaPasos.TruncarResponde | Proc-Pokedex-Server/pokedex-server.c:509-545 | a resize of a regular file is reported as done exactly when it is done and bit 31 of the size is clear |
| OsadaPasos.PasoTocaUno | Proc-Pokedex-Server/pokedex-server.c:741-910 | every request changes what readers see of at most one slot |
| OsadaPasos.DesbordaTamSii | Proc-Pokedex-Server/pokedex-server.c:510-543 | the size stored by a resize is past its blocks exactly when the size is one of the 63 below a multiple of 2^38, where the count of blocks wraps to 0 |
| OsadaPasos.TruncarBienFormadoSii | Proc-Pokedex-Server/pokedex-server.c:509-545 | a resize keeps the disk well formed exactly when it does not grow a file without blocks while blocks are free, and the size it stores is covered |
| OsadaPasos.CadenaYLibres | Proc-Pokedex-Server/pokedex-server.c:397-421 | a chain and the free blocks together are at most the blocks of the volume |
| OsadaPasos.PasoBienFormadoSii | Proc-Pokedex-Server/pokedex-server.c:741-910 | each request keeps a well-formed disk well formed exactly when it is not a resize that loses blocks or overflows the size: create, write, delete and rename always do |
| OsadaPasos.RenombrarSinSombra | Proc-Pokedex-Server/pokedex-server.c:868-905 | after an accepted rename every live entry is findable exactly when the target directory resolved or the name clashes with no slot of the root |
| OsadaPasos.PasoSinSombraSii | Proc-Pokedex-Server/pokedex-server.c:741-910 | each request keeps every live entry findable exactly when it is not such a rename |
| OsadaPasos.BorrarArbol | Proc-Pokedex-Server/pokedex-server.c:232-253 | whatever a delete accepts, the entries stay a tree |
| OsadaPasos.RenombrarArbol | Proc-Pokedex-Server/pokedex-server.c:868-905 | an accepted rename keeps the tree exactly when the entry is deleted, or goes to a live directory that is not below it |
| OsadaPasos.PasoArbolSii | Proc-Pokedex-Server/pokedex-server.c:741-910 | each request keeps the tree exactly when it is neither a create under something that is not a live directory nor such a rename |
| OsadaPasos.CorridaBienFormadaSii | Proc-Pokedex-Server/pokedex-server.c:598-916 | in every run the disk is well formed up to moment n exactly when no earlier request was a resize that loses blocks or overflows the size |
| OsadaPasos.CorridaSinSombraSii | Proc-Pokedex-Server/pokedex-server.c:598-916 | in every run each live entry is findable up to moment n exactly when no earlier request was a rename that hides one |
| OsadaPasos.CorridaArbolSii | Proc-Pokedex-Server/pokedex-server.c:598-916 | in every run the entries are a tree up to moment n exactly when no earlier request broke it |
| OsadaPasos.ImagenVaciaEntera | Proc-Pokedex-Server/pokedex-server.c:918-960 | a formatted volume with no block and no entry in use has the three properties |
| OsadaSesion.AtenderCrear | Proc-Pokedex-Server/pokedex-server.c:795-839 | a create or mkdir request: its reply in every case and, on success, the new entry and nothing else |
| OsadaSesion.AtenderEscribir | Proc-Pokedex-Server/pokedex-server.c:761-793 | a write request: exactly when it succeeds, the new chain, bytes and size, and what each kind of failure leaves |
| OsadaSesion.AtenderTruncar | Proc-Pokedex-Server/pokedex-server.c:741-759 | a truncate request: its effect in every case, and the int whose sign is the reply |
| OsadaSesion.AtenderBorrar | Proc-Pokedex-Server/pokedex-server.c:841-866 | a delete request: its reply in every case, the entry marked deleted, its blocks freed, nothing else |
| OsadaSesion.AtenderRenombrar | Proc-Pokedex-Server/pokedex-server.c:868-910 | a rename request: its reply in every case and, on success, the entry under its new name and parent |
| OsadaSesion.Atender | Proc-Pokedex-Server/pokedex-server.c:598-916 | attending a request is a step of that request |
| OsadaSesion.AtenderTodos | Proc-Pokedex-Server/pokedex-server.c:598-916 | attending requests one after another is a run of exactly those, from the volume as it was to the volume as it ends |
| OsadaFallas.TruncarPierde | Proc-Pokedex-Server/pokedex-server.c:529-539 | a concrete failure: on a well-formed disk with one free block, resizing an empty file to one byte loses the block |
| OsadaFallas.TruncarDesborda | Proc-Pokedex-Server/pokedex-server.c:510-543 | a concrete failure: resizing any regular file to one byte less than 2^38 leaves no block and a size of 2^32 - 1 |
| OsadaFallas.TruncarNiega | Proc-Pokedex-Server/pokedex-server.c:509-545 | a concrete failure: resizing any regular file to 2^31 bytes, when the blocks suffice, is done and reported as failed |
| OsadaFallas.CrearBajoArchivo | Proc-Pokedex-Server/pokedex-server.c:547-582 | a concrete failure: creating /a/b when a is a regular file is accepted |
| OsadaFallas.CrearEnSiMismo | Proc-Pokedex-Server/pokedex-server.c:547-582 | a concrete failure: after the directory of the lowest free slot is deleted, making a directory in it is accepted and makes it its own parent; every parent is then a live directory, and there is no tree |
| OsadaFallas.RenombrarBajoSiMismo | Proc-Pokedex-Server/pokedex-server.c:868-905 | a concrete failure: renaming the directory /a to /a/b is accepted |
| OsadaFallas.RenombrarSinDestinoOculta | Proc-Pokedex-Server/pokedex-server.c:888-898 | a concrete failure: renaming /b to /x/a when /x does not exist is accepted, moves the entry to the root and hides it behind the live file a |
| Reduccion.ObtenidosCuenta | Proc-Mapa/headers/deadlock.h:60-81 | the recursive count is the number of captured pokemon whose name starts with the symbol |
| Reduccion.CantidadObtenidosDeUnTipo | Proc-Mapa/headers/deadlock.h:60-81 | the number of captured pokemon whose name starts with a symbol |
| Reduccion.GenerarMatrizPeticiones | Proc-Mapa/headers/deadlock.h:83-122 | each row asks for one pokemon of the first pokenest with the symbol requested, or for nothing |
| Reduccion.GenerarMatrizAsignados | Proc-Mapa/headers/deadlock.h:125-161 | each cell is the number of pokemon a trainer holds whose name starts with the symbol of the pokenest |
| Reduccion.GenerarVectorRecursosDisponibles | Proc-Mapa/headers/deadlock.h:164-176 | the free pokemon of each pokenest |
| Reduccion.Caso.UnionTrabada | Proc-Mapa/headers/deadlock.h:219-244 | stuck sets are closed under union, so the greatest one exists and depends on no order |
| Reduccion.Caso.AgendaNoLibera | Proc-Mapa/headers/deadlock.h:219-244 | no release schedule ever frees a member of a stuck set |
| Reduccion.Caso.TrabadoSinRecursos | Proc-Mapa/headers/deadlock.h:225-243 | a stuck trainer asks for a pokenest with nothing free whose allocated pokemon are all held by stuck trainers |
| Reduccion.AvancePaso | Proc-Mapa/headers/deadlock.h:234-242 | releasing a satisfiable trainer keeps what the loop has established: no stuck set loses a member |
| Reduccion.MarcarTenedores | Proc-Mapa/headers/deadlock.h:199-217 | the flags left up are those of the trainers that hold something |
| Reduccion.NoPuedenEjecutar | Proc-Mapa/headers/deadlock.h:179-260 | terminates despite the restarts and returns, in order, exactly the greatest stuck set; every other holder is in a release schedule |
| Deadlock.TieneLoQuePide | Proc-Mapa/headers/deadlock.h:263-283 | the other trainer has another symbol and has captured a pokemon of the pokenest this one asks for |
| Deadlock.EstaEnInanicion | Proc-Mapa/headers/deadlock.h:286-306 | nobody else in the list waits for anything this trainer holds |
| Deadlock.SacarInanicion | Proc-Mapa/headers/deadlock.h:309-338 | prunes to a set in which everybody is waited for, without taking anybody out of any such subset, whatever the order |
| Deadlock.ObtenerDeadlock | Proc-Mapa/headers/deadlock.h:442-543 | reports exactly the greatest held-up subset of the greatest stuck set, and nothing for fewer than two trainers |
| Deadlock.HayCiclo | Proc-Mapa/headers/deadlock.h:309-338 | a non-empty report contains a cycle of trainers each waiting for something the next one holds |
| Deadlock.ReporteSiiCiclo | Proc-Mapa/headers/deadlock.h:442-543 | something is reported exactly when the stuck trainers contain a wait cycle, and every such cycle is in the report |
| Deadlock.ReportadoEspera | Proc-Mapa/headers/deadlock.h:219-244 | a stuck trainer really waits: its pokenest has nothing free, and nobody outside the stuck set has captured any pokemon of it |
| MapaPokemon.Mapa.constructor | Proc-Mapa/mapa.c:203-229 | a map with its pokenests loaded and nobody on it satisfies the invariant |
| MapaPokemon.Mapa.DesbloquearJugador | Proc-Mapa/mapa.c:273-293 | takes the first trainer of a queue, and only that one, or reports an empty queue |
| MapaPokemon.Mapa.BloquearJugador | Proc-Mapa/mapa.c:1379-1389 | with nothing free, the running trainer goes marked to the tail of the queue of what it asked for |
| MapaPokemon.Mapa.BorrarJugadorSistema | Proc-Mapa/mapa.c:789-799 | the trainer found by its socket leaves the list of all trainers, and nobody else does |
| MapaPokemon.Mapa.BorrarJugadorDeColaBloqueados | Proc-Mapa/mapa.c:1090-1119 | every queue is left without the trainer, through the auxiliary queue |
| MapaPokemon.SinJugadorConservaOrden | Proc-Mapa/mapa.c:1102-1114 | the others keep their order in the queue |
| MapaPokemon.Mapa.Entregar | Proc-Mapa/mapa.c:1184-1190 | the trainer freed gets the pokemon and is ready at the tail |
| MapaPokemon.Mapa.Devolver | Proc-Mapa/mapa.c:1198-1204 | a pokemon nobody waits for goes back to its pokenest, and the count goes up |
| MapaPokemon.Mapa.Ofrecer | Proc-Mapa/mapa.c:1161-1196 | the while loop, for any set of broken connections: offers a pokemon to the waiting trainers until a send works or nobody is left, handing on what the dropped ones held by recursion; a trainer taken out of its queue leaves if its connection is broken, and otherwise is ready with one pokemon more of what it waited for |
| MapaPokemon.Mapa.ExpropiarUno | Proc-Mapa/mapa.c:1158-1205 | one pokemon of the loop is placed exactly once; of the trainers taken out of a queue those with a broken connection leave and the others are ready and served; with no broken one the first waiting trainer gets it, or it goes to the tail of its pokenest when nobody waits |
| MapaPokemon.Mapa.Soltar | Proc-Mapa/mapa.c:1168-1181 | a trainer dropped in the loop: its pokemon are handed on and it leaves the system, with exactly those whose send failed meanwhile |
| MapaPokemon.Mapa.ExpropiarPokemones2 | Proc-Mapa/mapa.c:1147-1207 | terminates for every set of broken connections, places every pokemon exactly once and never reorders queue or ready list; exactly the trainers taken out of a queue whose connection is broken leave the system, nested ones too, and every other one taken out is ready with one pokemon more; if nobody leaves the result is that of handing the pokemon out one by one |
| MapaPokemon.CaidosRotos | Proc-Mapa/mapa.c:1166-1181 | whoever is missed after pokemon are handed on was waiting and has a broken connection |
| MapaPokemon.SuertesTrans | Proc-Mapa/mapa.c:1161-1196 | what becomes of each trainer while pokemon are handed on adds up over the steps |
| MapaPokemon.DarTodosSinFallos | Proc-Mapa/mapa.c:1158-1205 | handing pokemon out one by one makes somebody ready as soon as somebody waits for one of them, and takes nobody out of the system |
| MapaPokemon.Mapa.Matar | Proc-Mapa/mapa.c:1270-1284 | a deadlock victim leaves queue and system and its pokemon are handed on; with no failed send, and somebody else waiting for one of them, the ready list grows; the others keep their order in every queue, and only those whose send failed leave with it |
| MapaPokemon.Mapa.DesconectarCorriendo | Proc-Mapa/mapa.c:1450-1464 | the running trainer leaves and its pokemon are handed on; queues lose trainers only from the front and the ready list grows only at the tail |
| MapaPokemon.Mapa.DesconectarBloqueado | Proc-Mapa/mapa.c:1470-1490 | a blocked trainer leaves queue and system and its pokemon are handed on; the others keep their order in every queue |
| MapaPokemon.Mapa.Conectar | Proc-Mapa/mapa.c:1661-1687 | a trainer joins with the next arrival number, ready at the tail |
| MapaPokemon.Mapa.Despachar | Proc-Mapa/mapa.c:1287-1311 | one ready trainer runs; the others keep their order |
| MapaPokemon.Mapa.Reencolar | Proc-Mapa/mapa.c:1437-1448 | a trainer still free at the end of its turn is ready again, at the tail |
| MapaPokemon.Mapa.CapturarLibre | Proc-Mapa/mapa.c:1355-1373 | a capture with a pokemon free: kept exactly when the send works, and otherwise it goes to the tail of its queue |
| MapaPokemon.Mapa.Capturar | Proc-Mapa/mapa.c:1350-1393 | a capture request in every case; a disconnection is reported exactly when the send fails; the invariant and the pokemon are kept |
| MapaPokemon.Mapa.FinDeTurno | Proc-Mapa/mapa.c:1437-1464 | the end of a turn in every case |
| MapaPokemon.Mapa.BloqueadoEnSuCola | Proc-Mapa/mapa.c:259-293 | a trainer is marked as blocked exactly when it waits in the queue of what it asks for |
| MapaPokemon.Mapa.EnUnSoloLugar | Proc-Mapa/mapa.c:1222-1503 | each trainer is in exactly one place: running, ready, or in one queue, once |
| MapaPokemon.Mapa.PokenestCuenta | Proc-Mapa/mapa.c:1350-1391 | each pokenest counts its queue, and none has both a free pokemon and a waiting trainer |
| MapaPasos.SigueEnLista | Proc-Mapa/mapa.c:1505-1544 | arrivals, dispatches and requests leave each trainer on the deadlock list blocked and waited for |
| MapaPasos.ReportadoEnLista | Proc-Mapa/mapa.c:1520-1531 | every reported trainer is blocked, and another trainer waits in a queue for something it holds |
| MapaPasos.PasoListaBien | Proc-Mapa/mapa.c:1253-1544 | every event keeps the deadlock list sound: its members stay blocked and waited for until the list is emptied or replaced |
| MapaPasos.ReporteSii | Proc-Mapa/headers/deadlock.h:442-543 | detection is right and complete, in terms of queues, free pokemon and holdings: it reports exactly the trainers that are among some stuck ones (each holds something and waits for a pokenest with nothing free, all of whose pokemon are held by stuck ones) and in a group where each holds something another one, of another symbol, waits for |
| MapaPasos.EstancadosTrabados | Proc-Mapa/headers/deadlock.h:219-244 | trainers stuck on the queues are stuck in the matrices |
| MapaPasos.TrabadosEstancados | Proc-Mapa/headers/deadlock.h:219-244 | and trainers stuck in the matrices are stuck on the queues |
| MapaPasos.SostenidoSii | Proc-Mapa/headers/deadlock.h:309-338 | held up in what detection reads is held up on the queues |
| MapaPasos.PasoDetectaSii | Proc-Mapa/mapa.c:1505-1544 | after a detection the list has exactly the trainers in a deadlock, or nothing changed because there is none |
| MapaPasos.PasoSoloCaenRotos | Proc-Mapa/mapa.c:1158-1205 | a trainer leaves the map only if the event is about its leaving or its connection is broken |
| MapaPasos.EnElTotal | Proc-Mapa/mapa.c:1147-1207 | the pokemon of the total are exactly those free in some pokenest or held by some trainer of the map |
| MapaPasos.PasoListos | Proc-Mapa/mapa.c:1253-1493 | only a dispatch takes anybody out of the ready list; every other event adds at its tail or leaves it alone |
| MapaPasos.PeleaDesbloquea | Proc-Mapa/mapa.c:1270-1284 | a battle over a sound list removes its loser and, unless somebody else leaves too, makes a blocked trainer ready |
| MapaPasos.PasoNoAdelanta | Proc-Mapa/mapa.c:1090-1207 | no event lets a waiting trainer overtake another in a queue |
| MapaPasos.CorridaListaBien | Proc-Mapa/mapa.c:1253-1544 | in every run the deadlock list is sound at each moment |
| MapaPasos.CorridaNoAdelanta | Proc-Mapa/mapa.c:1090-1493 | in every run, whoever waits ahead of another in a queue stays ahead for as long as both wait there |
| MapaDeadlock.ValidEnRegla | Proc-Mapa/mapa.c:1222-1503 | a valid map is in order as a moment: one place for each trainer, free pokemon in their own pokenest, nobody waiting where one is free, and the total that of the pokemon free or held |
| MapaDeadlock.EstadoEsEspera | Proc-Mapa/mapa.c:1379-1389 | a trainer is marked as blocked exactly when it waits in a queue, and then asks for that pokenest |
| MapaDeadlock.LecturasIguales | Proc-Mapa/headers/deadlock.h:60-176 | what detection reads of the objects is what the places and holdings of the moment say |
| MapaDeadlock.Detectar | Proc-Mapa/mapa.c:1505-1544 | one turn of the detection thread: it reports exactly the trainers in a deadlock, keeps them in the deadlock list, and leaves the list alone when there is none |
| MapaDeadlock.Pelear | Proc-Mapa/mapa.c:1270-1284 | the battle of the list detection left, whatever happened in between: its loser leaves its queue and the system, with exactly those served whose connection is broken; with none a blocked trainer becomes ready |
| MapaDeadlock.ResolverDeadlock | Proc-Mapa/mapa.c:1269-1285 | detect and fight, with nobody arriving and any connections broken, ends with nobody in a deadlock and every pokemon in place |
| MapaDeadlock.Irse | Proc-Mapa/mapa.c:1450-1464 | the running trainer leaves: what its departure does to queues, ready list, pokemon and the deadlock list |
| MapaDeadlock.Cerrar | Proc-Mapa/mapa.c:1466-1490 | a closed socket removes its trainer from queue and system exactly when it was blocked |
| MapaDeadlock.Pedir | Proc-Mapa/mapa.c:1350-1464 | a capture request and the end of its turn: gone exactly when its connection is broken, and otherwise kept or blocked at the tail of the queue |
| MapaDeadlock.Ocurrir | Proc-Mapa/mapa.c:1253-1544 | each event is a step of that event: what it does to every place, queue, holding and the deadlock list, with the invariant, the pokemon and a sound list kept |
| MapaDeadlock.CorrerMapa | Proc-Mapa/mapa.c:1253-1544 | the events, one after another, are a run of exactly these events from the map as it was to the map as it ends, in order at each moment and with the same pokemon throughout |
| MapaDeadlock.Jornada | Proc-Mapa/mapa.c:1222-1544 | every moment reachable from an empty map, by a run of exactly these events, is in order and has exactly the pokemon the pokenests started with |
| MapaTurnos.CorridaEnOrden | Proc-Mapa/mapa.c:1303-1311 | in every run whose dispatches take the head, whoever is at position p of the ready list gets the (p+1)-th turn, whatever else happens |
| MapaTurnos.CorrerPorTurnos | Proc-Mapa/mapa.c:1303-1311 | the turns given under round robin are those of the dispatches of the run of exactly these events, in the order of the ready list |
| Planificacion.OrdenarListaSRDF | Proc-Mapa/headers/planificacion.h:36-51 | sorts by the sum of the remaining moves and then by arrival, keeping the same trainers |
| Planificacion.RemoveJugadorSocket | Proc-Mapa/headers/planificacion.h:71-81 | takes out the first trainer with a socket, the others in order |
| Planificacion.GetSRDF | Proc-Mapa/headers/planificacion.h:83-100 | takes out exactly a trainer whose sum of remaining moves is least, the earliest arrival among those, the others in order |
| Planificacion.GetPrioritySRDF | Proc-Mapa/mapa.c:688-699 | takes out the first ready trainer that does not know its pokenest yet |
| Planificacion.MenosDistanciaEstricta | Proc-Mapa/headers/planificacion.h:38-48 | the comparator is a strict weak order |
| Planificacion.AntesSii | Proc-Mapa/headers/planificacion.h:25-48 | the order it induces, on the sums of remaining moves and the arrival numbers |
| Planificacion.MenosDistanciaTransitiva | Proc-Mapa/headers/planificacion.h:38-48 | the comparator orders transitively, which is what the sort needs |
| Planificacion.DespachoEnOrden | Proc-Mapa/mapa.c:1303-1311 | dispatched and still ready, in this order, are those ready at first and those who came |
| Planificacion.TurnoExacto | Proc-Mapa/mapa.c:1303-1311 | a trainer at position p is the (p+1)-th dispatched |
| Lista.TLista.Add | Ejemplos/Algoritmo-de-eliminacion/list.c:33-43 | appends one element and returns its index |
| Lista.TLista.AddInIndex | Ejemplos/Algoritmo-de-eliminacion/list.c:58-78 | inserts before an index or at the end; any other index does nothing |
| Lista.TLista.GetElement | Ejemplos/Algoritmo-de-eliminacion/list.c:290-302 | the node at an index, or null |
| Lista.TLista.FindElement | Ejemplos/Algoritmo-de-eliminacion/list.c:304-318 | the first node that satisfies a condition, and its position |
| Lista.TLista.Remove | Ejemplos/Algoritmo-de-eliminacion/list.c:110-129 | removes one element, the others in order; an empty list gives nothing back |
| Lista.TLista.RemoveByCondition | Ejemplos/Algoritmo-de-eliminacion/list.c:131-140 | removes the first element that satisfies a condition, or nothing |
| Lista.TLista.Take | Ejemplos/Algoritmo-de-eliminacion/list.c:186-194 | a new list with the first elements, and a null for each one past the end; the original untouched |
| Lista.TLista.Pasada | Ejemplos/Algoritmo-de-eliminacion/list.c:240-255 | a pass: from the last swap on everything is in order with all before it, so the cut-off skips no needed work |
| Lista.TLista.Sort | Ejemplos/Algoritmo-de-eliminacion/list.c:231-258 | terminates for every comparator and permutes the data; sorted whenever the order the comparator induces is transitive |
| Lista.EstrictoOrdena | Ejemplos/Algoritmo-de-eliminacion/list.c:231-258 | with a strict weak order as comparator a list ends with nobody before a lesser one, ties included |
| Lista.TotalOrdena | Ejemplos/Algoritmo-de-eliminacion/list.c:231-258 | with a total, transitive comparator that says not after, it ends sorted by it |
| Lista.BurbujaAvanza | Ejemplos/Algoritmo-de-eliminacion/list.c:243-253 | a pair already in order extends what the pass has achieved |
| Lista.BurbujaIntercambia | Ejemplos/Algoritmo-de-eliminacion/list.c:244-250 | a swap extends what the pass has achieved and moves the cut-off |
| Diccionario.PosHashEnCubeta | Ejemplos/Algoritmo-de-eliminacion/dictionary.c:234-254 | looking for a hash code in its bucket is looking for it in the whole insertion-ordered list |
| Diccionario.FiltraSinIndice | Ejemplos/Algoritmo-de-eliminacion/dictionary.c:256-291 | removing the oldest entry with a hash code removes it from its own bucket and changes no other |
| Diccionario.ModDoble | Ejemplos/Algoritmo-de-eliminacion/dictionary.c:157-189 | an entry of a bucket moves to that bucket or to the one a table size further |
| Diccionario.FiltraFiltra | Ejemplos/Algoritmo-de-eliminacion/dictionary.c:157-189 | each new bucket can be filled from one old bucket alone, in order |
| Diccionario.PosHashFinal | Ejemplos/Algoritmo-de-eliminacion/dictionary.c:63-95 | inserting never replaces: a hash code already there still finds the older entry |
| Diccionario.QuitarDescubre | Ejemplos/Algoritmo-de-eliminacion/dictionary.c:256-291 | a removal changes the look-up of no other hash code and uncovers the next entry with its own |
| Diccionario.RepartoMueve | Ejemplos/Algoritmo-de-eliminacion/dictionary.c:169-188 | moving the first pending node of a bucket keeps every new bucket short only of what is still to move |
| Diccionario.RepartoAjeno | Ejemplos/Algoritmo-de-eliminacion/dictionary.c:169-188 | the two nodes a move writes to are in no other bucket, old or new |
| Diccionario.Diccionario.constructor | Ejemplos/Algoritmo-de-eliminacion/dictionary.c:21-28 | an empty table |
| Diccionario.Diccionario.GetElement | Ejemplos/Algoritmo-de-eliminacion/dictionary.c:234-254 | the oldest entry with the hash code of the key, or null |
| Diccionario.Diccionario.Get | Ejemplos/Algoritmo-de-eliminacion/dictionary.c:97-100 | the data of the oldest entry with the hash code of the key |
| Diccionario.Diccionario.HasKey | Ejemplos/Algoritmo-de-eliminacion/dictionary.c:128-130 | a key is present as soon as a key with the same hash code is |
| Diccionario.Diccionario.Size | Ejemplos/Algoritmo-de-eliminacion/dictionary.c:136-138 | the count is the number of entries exactly when no entry with null data was ever removed |
| Diccionario.Diccionario.Put | Ejemplos/Algoritmo-de-eliminacion/dictionary.c:63-95 | appends one entry, doubling the table exactly when the entry opens a bucket and leaves none empty |
| Diccionario.Diccionario.Resize | Ejemplos/Algoritmo-de-eliminacion/dictionary.c:157-194 | moves every node to a table of twice the size; the entries, and so every look-up, stay; the count of buckets in use is right again |
| Diccionario.Diccionario.RemoveElement | Ejemplos/Algoritmo-de-eliminacion/dictionary.c:256-291 | removes exactly the oldest entry with the hash code of the key |
| Diccionario.Diccionario.Remove | Ejemplos/Algoritmo-de-eliminacion/dictionary.c:102-108 | the same, and the count goes down only when the data was not null |
| Diccionario.QuitarNuloDescuenta | Ejemplos/Algoritmo-de-eliminacion/dictionary.c:102-108 | a concrete failure: after removing an entry with null data an empty table counts one element |

## Left out

* Sockets, select, threads, mutexes, semaphores, signals, FUSE callbacks, mmap and logging; drawing and system commands; configuration parsing.
* The battle itself and the pokemon factory: its loser is an arbitrary trainer of the deadlock list. A battle suspended because a fighter disconnects (`pelearEntrenadores` returns early and leaves the rest of the list) is not modelled.
* `removerListaDesconectados`, which compares a list pointer with a socket number; a disconnection is modelled for the trainer currently blocked under that socket.
* POKENEST and MOVER messages, the quantum and the destination coordinates; the planner is modelled on records whose remaining moves are arbitrary, apart from the map, whose dispatch takes any ready position.
* Events that do not apply on a map (a dispatch with somebody running, a request with nobody running) do nothing in `MapaDeadlock.Ocurrir`.
* When a send fails while pokemon are handed on, a step says who leaves, who becomes ready with one pokemon more of what it waited for, that nothing is lost and that no order changes, not which of several pokemon of one pokenest each one got.
* The byte each reply is sent as (they differ between rmdir and unlink): the model replies with what the functions return.
* `string_split`: paths are sequences of components without null bytes. Names longer than 17 bytes are compared by their first 17.
* READ and WRITE on a path that does not resolve index the table with -1, a rename to the root replies with an unset byte, a write of 2^31 bytes or more is passed as a negative int, and a resize of a regular file whose block count is a negative int reads before its list of blocks: undefined, so runs stop there. An unlink of a directory with live children is refused and also replies with an unset byte; what it returns is modelled, not the byte.
* Volumes of 4 GiB or more, and the wrap-around of count plus offset in a read.
* GETATTR and READDIR, modification times, and whether the bit past the end of the bitmap is read before the bound is tested.
* `list_remove` with an index out of range of a list that is not empty, and the list functions that only iterate.
* The body of the hash function (a parameter), `dictionary_clean`, `dictionary_destroy` and the iterator, and the overflow of table sizes.
* malloc failure and memory leaks.
* `batalla_deadlock`, `pokemon_mayor_nivel` and `expropiarPokemones`, superseded and unused, and the older copies of these cores elsewhere in the repository.
