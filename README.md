# modclass, modelled in Dafny

`modclass` is a small Node.js library. It builds an object (the *handle*) out of a directory of modules. Each module exports a function, a plain object or some other value. The composer loads every module in directory-listing order and turns its export into a property map:

- a function is called with a scope;
- a plain object is taken as it is;
- any other value becomes `{ <module name>: value }`.

The composer then assigns the properties onto the handle one by one. The first name the handle already owns raises an error, and nothing assigned before it is undone. When it succeeds, and unless the bundler is disabled, the handle gets a marker property `__modclass` holding `createBundle`.

`createBundle` writes a *loader* file. The loader re-creates the handle's properties from their source text. When asked, `createBundle` also writes a *clone* of the class file that uses the handle. The clone requires the bundle instead of the library and registers its class globally.

The model has three modules:

- `Text` (`text.dfy`) holds the JavaScript string operations the library relies on: `indexOf` (and so `inVal` on strings), `split`, `join` and `trim`.
- `Composer` (`composer.dfy`) models the composer.
  - The handle is a class whose fields are the property names in enumeration order and a map from names to values. `Assign` is `handle[key] = value`.
  - The composer is a method with two nested loops. It is proved against `ComposeSpec`, a function over the handle's properties.
  - The merge is a run over the flat list of assignments the modules make (`Plan`).
- `Bundler` (`bundler.dfy`) models `createBundle`: the existence checks, the loader text built by a loop over the handle, and the clone rewrite.
  - The clone rewrite is a method whose loop rewrites the list of lines in place. It is proved against `Scan`, a fold over the lines. `ScanMeaning` then gives `Scan`'s meaning line by line.
  - The class pattern `/class +(\w*) +?\{?/` is matched by hand-written functions, including the engine's backtracking: with two or more spaces and no name followed by a space, it matches with an empty name.
  - The first `require\(.*?\)` is found as the leftmost `require(` followed by a `)` that `.` can reach. The replacement honours the `$` patterns of `String.prototype.replace`.

Where the library's documentation and its code differ, the model follows the code:

- Properties are excluded from the loader when their name is an exact member of `excludeProps` (`index.js:125` tests membership in an array), not when it contains an excluded word.
- A collision leaves the handle with everything assigned before it, including earlier properties of the module that collided.
- When a class was latched but no export line was rewritten, the appended fallback line interpolates the regular expression's match array, as `index.js:174` does. That array prints as the whole match and the name joined by a comma (`FallbackId`).

The file system is modelled as inputs and outputs:

- the result of `statSync` and `readdirSync` is a `DirStatus` holding the modules with what each exports;
- existing files are a set of paths;
- the class file is its text;
- the files written are returned in order;
- the two warnings are returned as flags.

The library's directory name (`masterName`) and the resolved configuration are parameters.

## Model

| member | source | states |
|---|---|---|
| Text.IndexOf | index.js:11 | an offset reported by `indexOf` is at or after the start offset and the pattern occurs there |
| Text.IndexOfFirst | index.js:11 | `indexOf` reports the first occurrence; when it reports none, the pattern occurs nowhere after the start |
| Text.ContainsIff | index.js:11 | `inVal` on a string holds exactly when the text occurs somewhere in it |
| Text.Split | index.js:143-144 | `split` yields at least one piece; no piece contains the separator; the first piece is the text up to the first separator |
| Text.JoinSplit | index.js:143-178 | joining the split lines with the same separator gives the file text back, so lines that no rule rewrites come back unchanged |
| Text.Trim | index.js:159 | the trimmed line neither starts nor ends with JavaScript white space, and a line without white space at its ends is unchanged |
| Text.TrimInfix | index.js:159 | the trimmed line is an infix of the line, and everything removed from either end is JavaScript white space |
| Composer.Props.Put | index.js:76 | a property assignment keeps the names distinct; a new name goes last in enumeration order, an owned one keeps its place |
| Composer.Handle.Assign | index.js:76 | assigning on the handle changes its properties exactly as `Put` does and keeps them well formed |
| Composer.ChooseScope | index.js:56-58 | a function export gets the scope map's entry when the map owns the module's name, and the handle otherwise |
| Composer.Resolve | index.js:61-65 | a function export yields its result for the scope, a plain object itself, any other value the single property named after the module |
| Composer.Assignments | index.js:68-69 | a module's assignments are its properties, in order, tagged with the module's name |
| Composer.ComposeSpec | index.js:38-46 | a missing path, a path that is not a directory, and a scope map with another constructor each raise their error in that order, and leave the handle untouched |
| Composer.Compose | index.js:21-87 | the composer leaves the handle and returns the outcome exactly as `ComposeSpec` says |
| Composer.AssignAll | index.js:68-78 | one module's loop assigns until the first owned name and returns it; the handle is then exactly the merge run's state at that collision |
| Composer.RunMergedIffFresh | index.js:68-78 | the merge completes exactly when no assigned name is owned by the handle or taken by an earlier assignment |
| Composer.RunValid | index.js:76 | the merge keeps the handle's properties well formed, whether it completes or collides |
| Composer.RunMergedKeys | index.js:68-78 | a completed merge appends the assigned names, in order, to the handle's enumeration order |
| Composer.RunMergedValues | index.js:68-78 | a completed merge keeps every earlier value and binds each assigned name to its value |
| Composer.RunMerged | index.js:49-80 | a completed merge is strictly additive: old values kept, exactly the assigned names added, with their values, after the old ones |
| Composer.RunCollided | index.js:71-74 | a collision stops at the first assignment whose name is owned; the state left is what the assignments before it made |
| Composer.PlanConcat | index.js:49-50 | the assignments of a listing split into those of its two parts, module after module |
| Composer.ComposeDone | index.js:49-87 | a composition completes exactly when all names are fresh; it then keeps the old properties, adds the modules' properties with their values, and adds the marker exactly when the bundler is enabled; the names enumerate as the old ones, then the assigned ones in order, then the marker when it is new |
| Composer.ComposeCollision | index.js:68-87 | a collision raises the duplicate error for the first owned name, keeps every earlier assignment, even of the same module, with its value, keeps the old values, and adds no marker |
| Bundler.ClassFilename | index.js:105 | the class file name is the base name up to, and without, its first dot |
| Bundler.Precheck | index.js:105-115 | the run is refused exactly when overwriting is off and either planned path exists; the bundle path is reported first; both are checked whether or not the class is cloned |
| Bundler.SecondEmissionFails | index.js:109-111 | once the bundle exists, a second run without `overwrite` is refused on the bundle path |
| Bundler.KeptMembers | index.js:124-125 | a property gets a loader line exactly when it is not in `excludeProps` and is not the marker |
| Bundler.KeptOrder | index.js:124-132 | the loader's property lines follow enumeration order, one per non-excluded property |
| Bundler.LoaderLayout | index.js:117-134 | the loader is the dependency lines, an empty line, the header, one line per kept property with its text, and the footer |
| Bundler.BuildLoader | index.js:117-134 | the loop over the handle builds exactly the loader lines |
| Bundler.FindClassSound | index.js:159 | a class match found is a match at some `class` in the line, and its captured name is made of word characters |
| Bundler.FindClassComplete | index.js:159 | a match at any `class` in the line, also in mid-line or inside a longer word, is found |
| Bundler.FindClassLeftmost | index.js:159 | the match reported is the one at the first `class` where the pattern matches, as `match` returns the leftmost match |
| Bundler.MatchNamed | index.js:159 | a text starting `class <Name> ` is matched at its start, capturing `<Name>` |
| Bundler.DeclaredName | index.js:159 | the line `class <Name> <rest>` is a declaration whose captured name is `<Name>` |
| Bundler.NoClassWord | index.js:159 | a line whose trimmed text lacks `class` declares nothing |
| Bundler.CloseParenFirst | index.js:154 | the `)` that ends a require call is the first one, and no line terminator comes before it |
| Bundler.FirstRequireCall | index.js:154 | no earlier `require(` starts a match of the require pattern |
| Bundler.RequireCallEnd | index.js:154 | the match ends at the first `)` after its `require(` |
| Bundler.Substitute | index.js:154 | a replacement text without `$` is inserted as it is |
| Bundler.DerefRewrite | index.js:153-154 | a line's first require call, and only that, is replaced by a require of the bundle file; a line without one is unchanged |
| Bundler.LatchEmpty | index.js:159-160 | no class name is latched exactly when no line so far declares a class |
| Bundler.LatchIsFirstDecl | index.js:159-160 | the latched name is the first declaration's |
| Bundler.LatchStable | index.js:159-160 | once latched, the class name never changes |
| Bundler.ScanMeaning | index.js:151-166 | the scan rewrites each line by its rule, latches the first declaration, and sets each flag exactly when its rule fired on some line |
| Bundler.Clone | index.js:151-176 | every line keeps its index, except that the require fallback goes in at index 1 when no line was redirected; the global fallback comes last when no export line was rewritten |
| Bundler.ExportLatch | index.js:159-165 | no line before the first declaration is an export line; from it on, exactly the lines containing `module.exports` are |
| Bundler.ExportLines | index.js:159-165 | no line before the first declaration is an export line; from it on, exactly the lines containing `module.exports` are, under that declaration's latched name |
| Bundler.ExportRewrite | index.js:162-163 | from the first declaration on, every line containing `module.exports` is rewritten to `global.<Name> = <Name>;` with that declaration's name |
| Bundler.NoLatch | index.js:168-176 | with no declaration, no export line is rewritten and the clone ends with the registration of the class file's name |
| Bundler.NoDeclarationFallback | index.js:168-176 | a class file without a declaration keeps its lines but the redirected requires, and ends with the registration of its own base name |
| Bundler.ScanLine | index.js:152-165 | one line's step: the redirect test, the latch, and the export rewrite, the later rewrite winning |
| Bundler.ScanLines | index.js:151-166 | the loop over the lines computes exactly the scan's lines, latched name and flags |
| Bundler.CloneRewrite | index.js:143-176 | the rewrite with its two fallbacks gives the clone's lines; its flags say whether a line was redirected and whether an export line was rewritten |
| Bundler.CreateBundle | index.js:93-181 | a refused run writes nothing; otherwise the loader is written first, the clone second and only when asked; each warning is raised exactly when its fallback was used |

## Left out

- `fs`, the dynamic `require` of each module, and `module.parent` are replaced by inputs and outputs. A module whose loading throws is not modelled.
- The `Promise` wrapper is left out: `CreateBundle` returns its result directly. The `console.log` warnings are returned as flags.
- `path.join`, `path.basename` and `path.dirname` are not modelled. A path is a directory and a file name, with no normalisation. `__dirname.split(path.sep).pop()` is the `masterName` parameter.
- `extend`'s merging of the options over their defaults is not modelled: the merged options are the input.
- `String(fn)` and template interpolation are not modelled. A property value carries the text it prints as.
- The side effects of calling a function export are not modelled: its result is given per scope.
- A function export whose call returns `null` or `undefined` makes `Object.keys` throw a `TypeError` after the earlier modules were merged. The model's `Callable` always returns a property list, so it does not capture this throw; a primitive result, whose keys `Object.keys` also lists, is not modelled either.
- Async functions and classes as exports are not modelled. Their constructor test and the `TypeError` of calling a class without `new` are not represented.
- A `null` scope map, a `""` scope map, and `null` or `undefined` exports throw JavaScript `TypeError`s or own unexpected properties. They are not modelled.
- A `char` stands for one character; JavaScript's UTF-16 code units (lone surrogates, characters taking two units) are not represented.
- JavaScript enumerates integer-like keys in numeric order first; that ordering is not modelled. Neither are inherited enumerable properties, which `for...in` would also visit.
- Write failures of `writeFileSync` and read failures of `readFileSync` are not modelled.
- The clone's lines are a sequence that is rewritten, not a JavaScript array updated by index, so aliasing of that array is not represented.
- Bundler.DerefRewrite: states the replaced text only for a bundle file name without `$`.
- Bundler.Substitute: implements the `$$`, `$&`, `` $` `` and `$'` patterns of the replacement text, but its contract states only that a text without `$` is inserted as it is.
- Bundler.DeclaredName: states the match only for a non-empty name followed by a space and a line that does not end in white space. Other declarations are covered by `FindClassSound`, `FindClassComplete` and `FindClassLeftmost`, which do not name the captured text.
